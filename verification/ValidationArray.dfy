/** Array keywords (`src/schema/jso_schema_validation_array.c`, up to `uniqueItems`). */
module ValidationArrays {
  import opened Options
  import opened JsonValues
  import opened Schemas
  import opened Verdicts
  import opened ValidationStacks
  import opened ValidationResults

  /** The schema of `items` for the item at the running count, if there is one. */
  function FindItem(items: Items, count: nat): Option<Schema>
    requires !items.NoItems?
  {
    match items
    case OneSchema(c) => Some(c)
    case Tuple(cs) => if count < |cs| then Some(cs[count]) else None
  }

  /** At most one position is pushed: the schema of the item at the running count. */
  ghost predicate ItemPushed(ps: seq<Position>, lo: nat, hi: nat, i: nat, start: nat, depth: nat, c: Option<Schema>) {
    && hi <= |ps|
    && (if c.None? then hi == lo else hi == lo + 1 && ps[lo] == BasicPosition(c.value, Some(i), start, depth))
  }

  /** Adds the schema for the first item. */
  method ArrayStart(stack: ValidationStack, i: nat)
    requires stack.Valid() && i + 1 < stack.LayerStart()
    requires stack.positions[i].schema.Value? && stack.positions[i].schema.data.ArrayData?
    requires !stack.positions[i].isFinal ==> stack.positions[i].count == 0
    modifies stack`positions, stack`size
    ensures stack.Valid() && old(stack.size) <= stack.size
    ensures |old(stack.positions)| <= |stack.positions|
    ensures stack.positions[..old(stack.size)] == old(stack.positions[..stack.size])
    ensures var p := old(stack.positions[i]);
            ItemPushed(stack.positions, old(stack.size), stack.size, i, stack.LayerStart(), stack.depth,
                       if p.isFinal then None else ItemSchema(p.schema.data, 0))
  {
    var p := stack.positions[i];
    if p.isFinal {
      return;
    }
    var data := p.schema.data;
    if !data.items.NoItems? {
      var item := FindItem(data.items, p.count);
      if item.Some? {
        var index := stack.PushBasic(item.value, Some(i));
        return;
      }
      if data.additionalItems.Governed? {
        var index := stack.PushBasic(data.additionalItems.schema, Some(i));
      }
    }
  }

  /** After an item: checks the running count and adds the schema for the next item. */
  method ArrayAppend(stack: ValidationStack, i: nat) returns (result: ValidationResult)
    requires stack.Valid() && i + 1 < stack.LayerStart()
    requires stack.positions[i].schema.Value? && stack.positions[i].schema.data.ArrayData?
    requires 0 < stack.positions[i].count
    modifies stack`positions, stack`size
    ensures stack.Valid() && old(stack.size) <= stack.size
    ensures |old(stack.positions)| <= |stack.positions|
    ensures var p := old(stack.positions[i]);
            if !p.isFinal && (!AtMost(p.schema.data.maxItems, p.count) || ExtraItem(p.schema.data, p.count - 1)) then
              && result == Invalid && stack.size == old(stack.size)
              && stack.positions[..stack.size]
                 == old(stack.positions[..stack.size])[i := SetFinalResult(p, Invalid).(reason := KeywordReason)]
            else
              && result == Valid
              && stack.positions[..old(stack.size)] == old(stack.positions[..stack.size])
              && ItemPushed(stack.positions, old(stack.size), stack.size, i, stack.LayerStart(), stack.depth,
                            if p.isFinal then None else ItemSchema(p.schema.data, p.count))
  {
    var p := stack.positions[i];
    if p.isFinal {
      return Valid;
    }
    var data := p.schema.data;
    if data.maxItems.Some? && p.count > data.maxItems.value {
      stack.positions := stack.positions[i := SetFinalResult(p, Invalid).(reason := KeywordReason)];
      return Invalid;
    }
    if !data.items.NoItems? {
      var item := FindItem(data.items, p.count);
      if item.Some? {
        var index := stack.PushBasic(item.value, Some(i));
        return Valid;
      }
      match data.additionalItems {
        case Unset =>
        case Governed(schema) =>
          var index := stack.PushBasic(schema, Some(i));
        case Allowed(allowed) =>
          if !allowed && FindItem(data.items, p.count - 1).None? {
            stack.positions := stack.positions[i := SetFinalResult(p, Invalid).(reason := KeywordReason)];
            return Invalid;
          }
      }
    }
    return Valid;
  }

  /** Keywords that wait for the complete array. */
  method ArrayValue(data: Data, v: Json) returns (ok: bool)
    requires data.ArrayData? && v.Array?
    ensures ok <==> AtLeast(data.minItems, |v.items|) && (data.uniqueItems ==> Unique(v.items))
  {
    if data.minItems.Some? && |v.items| < data.minItems.value {
      return false;
    }
    if data.uniqueItems && !Unique(v.items) {
      return false;
    }
    return true;
  }
}
