/** How the result of a position changes its parent (`src/schema/jso_schema_validation_result.c`). */
module ValidationResults {
  import opened Options
  import opened JsonValues
  import opened Schemas
  import opened Verdicts
  import opened ValidationStacks
  import opened Layers

  function SetFinalResult(p: Position, result: ValidationResult): Position {
    p.(result := result, isFinal := true)
  }

  /** The parent after a composed child has reported. */
  function ParentAfter(child: Position, parent: Position): (r: Position)
    ensures r.schema == parent.schema && Slot(r) == Slot(parent)
  {
    if parent.isFinal then parent
    else match child.composition
      case Ref => SetFinalResult(parent, child.result)
      case TypeAny =>
        if child.result == Invalid && child.reason != TypeReason then SetFinalResult(parent, Invalid) else parent
      case TypeList =>
        if child.result == Valid then parent.(typeValid := true)
        else if child.reason != TypeReason then SetFinalResult(parent, Invalid)
        else parent
      case All => if child.result == Invalid then SetFinalResult(parent, Invalid) else parent
      case Any => if child.result == Valid then parent.(anyOfValid := true) else parent
      case One =>
        if child.result == Invalid then parent
        else if parent.oneOfValid then SetFinalResult(parent, Invalid)
        else parent.(oneOfValid := true)
      case _ => if child.result == Valid then SetFinalResult(parent, Invalid) else parent
  }

  /** The child itself only ever gets a composition reason. */
  function ChildAfter(child: Position, parent: Position): Position {
    if !parent.isFinal && child.result == Valid
       && (child.composition == Not || (child.composition == One && parent.oneOfValid))
    then child.(reason := CompositionReason)
    else child
  }

  method Propagate(stack: ValidationStack, k: nat)
    requires k < |stack.positions| && stack.positions[k].positionType != Sentinel
    requires stack.positions[k].parent.Some? ==> stack.positions[k].parent.value < k
    requires stack.positions[k].positionType == Composed ==>
               stack.positions[k].parent.Some? && stack.positions[k].composition != NoComposition
    modifies stack`positions
    ensures |stack.positions| == |old(stack.positions)|
    ensures var p := old(stack.positions[k]);
            stack.positions ==
              if p.parent.None? then old(stack.positions)
              else var q := old(stack.positions[p.parent.value]);
                if p.positionType == Composed then
                  old(stack.positions)[k := ChildAfter(p, q)][p.parent.value := ParentAfter(p, q)]
                else if p.result == Invalid then old(stack.positions)[p.parent.value := Failed(q)]
                else old(stack.positions)
  {
    var p := stack.positions[k];
    if p.parent.None? {
      return;
    }
    var i := p.parent.value;
    var q := stack.positions[i];
    if q.isFinal {
      return;
    }
    if p.positionType == Basic {
      if p.result != Valid {
        stack.positions := stack.positions[i := SetFinalResult(q, p.result)];
      }
      return;
    }
    match p.composition {
      case Ref =>
        stack.positions := stack.positions[i := SetFinalResult(q, p.result)];
      case TypeAny =>
        if p.result != Valid && p.reason != TypeReason {
          stack.positions := stack.positions[i := SetFinalResult(q, p.result)];
        }
      case TypeList =>
        if p.result != Valid {
          if p.reason != TypeReason {
            stack.positions := stack.positions[i := SetFinalResult(q, p.result)];
          }
        } else {
          stack.positions := stack.positions[i := q.(typeValid := true)];
        }
      case All =>
        if p.result != Valid {
          stack.positions := stack.positions[i := SetFinalResult(q, p.result)];
        }
      case Any =>
        if p.result == Valid {
          stack.positions := stack.positions[i := q.(anyOfValid := true)];
        }
      case One =>
        if p.result == Valid {
          if q.oneOfValid {
            stack.positions := stack.positions[k := p.(reason := CompositionReason)];
            stack.positions := stack.positions[i := SetFinalResult(q, Invalid)];
          } else {
            stack.positions := stack.positions[i := q.(oneOfValid := true)];
          }
        }
      case Not =>
        if p.result == Valid {
          stack.positions := stack.positions[k := p.(reason := CompositionReason)];
          stack.positions := stack.positions[i := SetFinalResult(q, Invalid)];
        }
      case NoComposition =>
        assert false;
    }
  }

  // ---- What a report means ------------------------------------------------

  /** The parent's flags follow the tally, and it becomes final exactly when the tally
      is no longer sound. */
  lemma ReportTallied(child: Position, parent: Position, t: Tally, accepts: bool, applies: bool)
    requires !parent.isFinal && parent.result == Valid && Shows(parent, t)
    requires child.composition != Ref && child.composition != NoComposition
    requires (child.result == Valid) == accepts || (child.composition == Any && child.result == Valid && t.any)
    requires child.composition in {TypeAny, TypeList} && child.result == Invalid ==>
               (child.reason == TypeReason <==> !applies)
    ensures var t' := Add(t, child.composition, accepts, applies);
            var after := ParentAfter(child, parent);
            if Sound(t') then
              && Shows(after, t')
              && after == parent.(anyOfValid := t'.any, typeValid := t'.typed, oneOfValid := t'.ones == 1)
            else after == SetFinalResult(parent, Invalid)
  {
  }

  /** At the start of an array, the report of child `m` keeps the early tally exact. */
  lemma EarlyReport(child: Position, parent: Position, m: nat)
    requires Compiled(parent.schema)
    requires m < |Children(parent.schema)| && Offspring(child, parent, m)
    requires parent.isFinal || parent.result == Valid
    requires EarlyOpen(parent, m + 1)
    requires EarlyOpen(child, 0)
    ensures EarlyOpen(ParentAfter(child, parent), m)
  {
    var s := parent.schema;
    if parent.isFinal {
      return;
    }
    var t := EarlyTally(s, m + 1);
    assert (child.result == Valid) == Early(child.schema);
    if s.Value? {
      ReportTallied(child, parent, t, Early(child.schema), false);
      if !Sound(EarlyTally(s, m)) { EarlyUnsoundFromStart(s, m); }
    }
  }

  /** A child that has been judged, or that was skipped because `anyOf` is already satisfied. */
  ghost predicate Judged(child: Position, parent: Position, v: Json) {
    || Done(child, v)
    || (child.composition == Any && child.result == Valid && parent.anyOfValid)
  }

  /** On the complete instance, the report of child `m` keeps the tally exact. */
  lemma Report(child: Position, parent: Position, v: Json, m: nat)
    requires Compiled(parent.schema)
    requires m < |Children(parent.schema)| && Offspring(child, parent, m)
    requires parent.isFinal || parent.result == Valid
    requires Open(parent, v, Length(v), m + 1)
    requires Judged(child, parent, v)
    ensures Open(ParentAfter(child, parent), v, Length(v), m)
  {
    if parent.isFinal {
    } else if parent.schema.Value? {
      ReportToValue(child, parent, v, m);
    } else {
      hide Compiled, PrefixOk;
      assert Children(parent.schema) == [Child(Ref, parent.schema.target)];
    }
  }

  lemma TallyStep(s: Schema, v: Json, m: nat)
    requires m < |Children(s)|
    ensures var c := Children(s)[m];
            TallyFrom(s, v, m)
            == Add(TallyFrom(s, v, m + 1), c.composition, Verdict(c.schema, v), TypeApplies(c.schema, v))
  {
  }

  lemma UnsoundRejects(s: Schema, v: Json, m: nat)
    requires s.Value? && m <= |Children(s)| && !Sound(TallyFrom(s, v, m))
    ensures !Verdict(s, v)
  {
    UnsoundFromStart(s, v, m);
  }

  lemma TypedChildIsPlain(s: Schema, m: nat)
    requires Compiled(s) && m < |Children(s)| && Children(s)[m].composition in {TypeAny, TypeList}
    ensures Plain(Children(s)[m].schema)
  {
  }

  lemma JudgedReports(child: Position, parent: Position, t: Tally, v: Json)
    requires !parent.isFinal && parent.result == Valid && Shows(parent, t)
    requires child.composition != Ref && child.composition != NoComposition
    requires child.composition in {TypeAny, TypeList} ==> Plain(child.schema)
    requires Judged(child, parent, v)
    ensures var t' := Add(t, child.composition, Verdict(child.schema, v), TypeApplies(child.schema, v));
            var after := ParentAfter(child, parent);
            if Sound(t') then
              && Shows(after, t')
              && after == parent.(anyOfValid := t'.any, typeValid := t'.typed, oneOfValid := t'.ones == 1)
            else after == SetFinalResult(parent, Invalid)
  {
    hide Children, Verdict, ParentAfter, Add, HasType;
    ReportTallied(child, parent, t, Verdict(child.schema, v), TypeApplies(child.schema, v));
  }

  /** A parent that shows the next tally, or is final because that tally is unsound. */
  lemma OpenNext(parent: Position, after: Position, v: Json, m: nat)
    requires parent.schema.Value? && !parent.isFinal && parent.result == Valid && !Plain(parent.schema)
    requires m < |Children(parent.schema)| && Open(parent, v, Length(v), m + 1)
    requires var t := TallyFrom(parent.schema, v, m);
             if Sound(t) then
               Shows(after, t) && after == parent.(anyOfValid := t.any, typeValid := t.typed, oneOfValid := t.ones == 1)
             else after == SetFinalResult(parent, Invalid) && !Verdict(parent.schema, v)
    ensures Open(after, v, Length(v), m)
  {
    hide Children, PrefixOk, TallyFrom, Verdict, Plain, Expands, HasType;
  }

  lemma ReportToValue(child: Position, parent: Position, v: Json, m: nat)
    requires Compiled(parent.schema) && parent.schema.Value? && !parent.isFinal && parent.result == Valid
    requires m < |Children(parent.schema)| && Offspring(child, parent, m)
    requires Open(parent, v, Length(v), m + 1)
    requires Judged(child, parent, v)
    ensures Open(ParentAfter(child, parent), v, Length(v), m)
  {
    var s := parent.schema;
    TallyStep(s, v, m);
    assert !Plain(s);
    hide Children, Compiled, PrefixOk, TallyFrom, Verdict, ParentAfter, Add, Expands, Plain, HasType, Judged;
    if child.composition in {TypeAny, TypeList} { TypedChildIsPlain(s, m); }
    JudgedReports(child, parent, TallyFrom(s, v, m + 1), v);
    if !Sound(TallyFrom(s, v, m)) { UnsoundRejects(s, v, m); }
    OpenNext(parent, ParentAfter(child, parent), v, m);
  }
}
