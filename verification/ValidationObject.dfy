/** Object keywords (`src/schema/jso_schema_validation_object.c`). */
module ValidationObjects {
  import opened Options
  import opened JsonValues
  import opened Schemas
  import opened Verdicts
  import opened ValidationStacks
  import opened ValidationResults

  /** The positions at `lo..hi` were pushed for `i` and hold schemas that govern the member. */
  ghost predicate OnlyGoverning(ps: seq<Position>, lo: nat, hi: nat, i: nat, start: nat, depth: nat,
                                data: Data, key: string)
    requires data.ObjectData?
  {
    && lo <= hi <= |ps|
    && forall k :: lo <= k < hi ==>
         ps[k] == BasicPosition(ps[k].schema, Some(i), start, depth) && Governs(data, key, ps[k].schema)
  }

  ghost predicate Contains(ps: seq<Position>, lo: nat, hi: nat, c: Schema) {
    hi <= |ps| && exists k :: lo <= k < hi && ps[k].schema == c
  }

  /** The positions at `lo..hi` are exactly the governing schemas of one member, pushed for `i`. */
  ghost predicate GoverningPushed(ps: seq<Position>, lo: nat, hi: nat, i: nat, start: nat, depth: nat,
                                  data: Data, key: string)
    requires data.ObjectData?
  {
    && OnlyGoverning(ps, lo, hi, i, start, depth, data, key)
    && (forall c :: Governs(data, key, c) ==> Contains(ps, lo, hi, c))
  }

  method PushGoverning(stack: ValidationStack, schema: Schema, i: nat, ghost lo: nat, ghost data: Data,
                       ghost key: string)
    requires stack.Valid() && data.ObjectData? && Governs(data, key, schema)
    requires OnlyGoverning(stack.positions, lo, stack.size, i, stack.LayerStart(), stack.depth, data, key)
    modifies stack`positions, stack`size
    ensures stack.Valid() && stack.size == old(stack.size) + 1
    ensures |old(stack.positions)| <= |stack.positions|
    ensures stack.positions[..old(stack.size)] == old(stack.positions[..stack.size])
    ensures OnlyGoverning(stack.positions, lo, stack.size, i, stack.LayerStart(), stack.depth, data, key)
    ensures forall c :: old(Contains(stack.positions, lo, stack.size, c)) || c == schema ==>
              Contains(stack.positions, lo, stack.size, c)
  {
    hide Governs;
    ghost var ps, n := stack.positions, stack.size;
    var index := stack.PushBasic(schema, Some(i));
    assert forall k :: 0 <= k < n ==> stack.positions[k] == stack.positions[..n][k] == ps[k];
    assert stack.positions[n].schema == schema;
  }

  /** Adds the schemas for one key to the top layer, or fails the position for good. */
  method ObjectKey(stack: ValidationStack, i: nat, key: string) returns (result: ValidationResult)
    requires stack.Valid() && i + 1 < stack.LayerStart()
    requires stack.positions[i].schema.Value? && stack.positions[i].schema.data.ObjectData?
    modifies stack`positions, stack`size
    ensures stack.Valid() && old(stack.size) <= stack.size
    ensures |old(stack.positions)| <= |stack.positions|
    ensures var p := old(stack.positions[i]);
            if p.isFinal then
              result == Valid && stack.positions == old(stack.positions) && stack.size == old(stack.size)
            else if !AtMost(p.schema.data.maxProperties, p.count) || ExtraMember(p.schema.data, key) then
              && result == Invalid && stack.size == old(stack.size)
              && stack.positions[..old(stack.size)]
                 == old(stack.positions[..stack.size])[i := SetFinalResult(p, Invalid).(reason := KeywordReason)]
            else
              && result == Valid
              && stack.positions[..old(stack.size)] == old(stack.positions[..stack.size])
              && GoverningPushed(stack.positions, old(stack.size), stack.size, i, stack.LayerStart(), stack.depth,
                                 p.schema.data, key)
  {
    hide Governs, IsLayer;
    var p := stack.positions[i];
    if p.isFinal {
      return Valid;
    }
    var data := p.schema.data;
    if data.maxProperties.Some? && p.count > data.maxProperties.value {
      FailByKeyword(stack, i);
      return Invalid;
    }
    ghost var lo := stack.size;
    var found := PushMatching(stack, i, key, data);
    if !found {
      match data.additionalProperties {
        case Unset =>
        case Governed(schema) =>
          GovernsWhen(data, key, schema);
          PushGoverning(stack, schema, i, lo, data, key);
        case Allowed(allowed) =>
          if !allowed {
            FailByKeyword(stack, i);
            return Invalid;
          }
      }
    }
    forall c | Governs(data, key, c)
      ensures Contains(stack.positions, lo, stack.size, c)
    {
      GovernsWhen(data, key, c);
    }
    return Valid;
  }

  method FailByKeyword(stack: ValidationStack, i: nat)
    requires stack.Valid() && i + 1 < stack.LayerStart()
    modifies stack`positions
    ensures stack.Valid()
    ensures stack.positions ==
              old(stack.positions)[i := SetFinalResult(old(stack.positions[i]), Invalid).(reason := KeywordReason)]
  {
    stack.positions := stack.positions[i := SetFinalResult(stack.positions[i], Invalid).(reason := KeywordReason)];
  }

  /** The schema is in `properties` under the key or in `patternProperties` under a match. */
  ghost predicate Matches(data: Data, key: string, c: Schema)
    requires data.ObjectData?
  {
    || (FindProperty(data.properties, key).Some?
        && data.properties[FindProperty(data.properties, key).value].schema == c)
    || (exists m :: 0 <= m < |data.patternProperties| && data.patternProperties[m].matches(key)
                    && data.patternProperties[m].schema == c)
  }

  lemma GovernsWhen(data: Data, key: string, c: Schema)
    requires data.ObjectData?
    ensures Governs(data, key, c) <==>
              Matches(data, key, c) || (data.additionalProperties == Governed(c) && Unmatched(data, key))
  {
  }

  /** `properties` and `patternProperties`; tells whether either of them knows the key. */
  method PushMatching(stack: ValidationStack, i: nat, key: string, data: Data) returns (found: bool)
    requires stack.Valid() && data.ObjectData?
    modifies stack`positions, stack`size
    ensures stack.Valid() && old(stack.size) <= stack.size
    ensures |old(stack.positions)| <= |stack.positions|
    ensures stack.positions[..old(stack.size)] == old(stack.positions[..stack.size])
    ensures OnlyGoverning(stack.positions, old(stack.size), stack.size, i, stack.LayerStart(), stack.depth, data, key)
    ensures forall c :: Matches(data, key, c) ==> Contains(stack.positions, old(stack.size), stack.size, c)
    ensures found <==> !Unmatched(data, key)
    ensures !found ==> stack.size == old(stack.size)
  {
    hide Governs;
    ghost var lo := stack.size;
    ghost var before := stack.positions[..lo];
    found := false;
    var f := FindProperty(data.properties, key);
    if f.Some? {
      GovernsWhen(data, key, data.properties[f.value].schema);
      PushGoverning(stack, data.properties[f.value].schema, i, lo, data, key);
      found := true;
    }
    var j := 0;
    while j < |data.patternProperties|
      invariant 0 <= j <= |data.patternProperties|
      invariant stack.Valid() && lo <= stack.size
      invariant |old(stack.positions)| <= |stack.positions|
      invariant stack.positions[..lo] == before
      invariant OnlyGoverning(stack.positions, lo, stack.size, i, stack.LayerStart(), stack.depth, data, key)
      invariant f.Some? ==> Contains(stack.positions, lo, stack.size, data.properties[f.value].schema)
      invariant forall m :: 0 <= m < j && data.patternProperties[m].matches(key) ==>
                  Contains(stack.positions, lo, stack.size, data.patternProperties[m].schema)
      invariant !found ==> stack.size == lo
      invariant found <==> f.Some? || exists m :: 0 <= m < j && data.patternProperties[m].matches(key)
    {
      var pattern := data.patternProperties[j];
      if pattern.matches(key) {
        GovernsWhen(data, key, pattern.schema);
        ghost var ps, n := stack.positions, stack.size;
        PushGoverning(stack, pattern.schema, i, lo, data, key);
        assert stack.positions[..lo] == stack.positions[..n][..lo] == ps[..lo];
        found := true;
      }
      j := j + 1;
    }
  }

  /** Keywords that wait for the complete object. */
  method ObjectValue(data: Data, v: Json) returns (ok: bool)
    requires data.ObjectData? && v.Object?
    ensures ok <==> AtLeast(data.minProperties, |v.members|)
                    && forall i :: 0 <= i < |data.required| ==> HasKey(v.members, data.required[i])
  {
    if data.minProperties.Some? && |v.members| < data.minProperties.value {
      return false;
    }
    var i := 0;
    while i < |data.required|
      invariant 0 <= i <= |data.required|
      invariant forall j :: 0 <= j < i ==> HasKey(v.members, data.required[j])
    {
      if !HasKey(v.members, data.required[i]) {
        return false;
      }
      i := i + 1;
    }
    return true;
  }
}
