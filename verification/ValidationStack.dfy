/** The flat stack of validation positions (`src/schema/jso_schema_validation_stack.c`). */
module ValidationStacks {
  import opened Options
  import opened Schemas
  import opened Verdicts

  datatype PositionType = Basic | Composed | Sentinel

  datatype ValidationResult = Valid | Invalid

  datatype InvalidReason = NoReason | TypeReason | CompositionReason | KeywordReason

  /** One slot of the stack.  `parent` is an index, which is what the parent
      pointer of the program amounts to while the array is not moved. */
  datatype Position = Position(
    positionType: PositionType,
    composition: CompositionType,
    result: ValidationResult,
    reason: InvalidReason,
    isFinal: bool,
    parent: Option<nat>,
    schema: Schema,
    objectKey: Option<string>,
    layerStart: nat,
    count: nat,
    oneOfValid: bool,
    anyOfValid: bool,
    typeValid: bool,
    depth: nat)

  /** Stands for the null schema pointer of a sentinel. */
  const NO_SCHEMA := Value(MixedData, None, [], Unlisted, [], [], [], None)

  /** A cleared slot. */
  const CLEARED := Position(Basic, NoComposition, Valid, NoReason, false, None, NO_SCHEMA, None, 0, 0,
                            false, false, false, 0)

  /** The part of a position that is fixed when it is pushed. */
  function Slot(p: Position): Position {
    p.(result := Valid, reason := NoReason, isFinal := false, objectKey := None, count := 0,
       oneOfValid := false, anyOfValid := false, typeValid := false)
  }

  /** A new position as `push_basic` leaves it. */
  function BasicPosition(schema: Schema, parent: Option<nat>, layerStart: nat, depth: nat): Position {
    CLEARED.(schema := schema, parent := parent, layerStart := layerStart, depth := depth)
  }

  /** A new position as `push_composed` leaves it. */
  function ComposedPosition(c: Child, parent: nat, layerStart: nat, depth: nat): Position {
    BasicPosition(c.schema, Some(parent), layerStart, depth).(
      positionType := Composed, composition := c.composition)
  }

  /** The positions of one layer: no sentinel among them, and each knows where the layer starts. */
  ghost predicate IsLayer(ps: seq<Position>, start: nat, end: nat, depth: nat) {
    && start <= end <= |ps|
    && forall i :: start <= i < end ==>
         ps[i].positionType != Sentinel && ps[i].layerStart == start && ps[i].depth == depth
  }

  class ValidationStack {
    /** Allocated memory; its length is the capacity. */
    var positions: seq<Position>
    var size: nat
    /** The top-most sentinel; sentinels are chained through their parents. */
    var lastSeparator: Option<nat>
    var depth: nat

    /** The capacity holds the positions, and the top layer lies above the last sentinel. */
    ghost predicate Valid()
      reads this
    {
      && 0 < |positions|
      && size <= |positions|
      && (lastSeparator.Some? ==>
            && lastSeparator.value < size
            && 0 < depth
            && positions[lastSeparator.value].positionType == Sentinel
            && positions[lastSeparator.value].layerStart == lastSeparator.value)
      && IsLayer(positions, LayerStart(), size, depth)
    }

    /** Index of the first position of the top layer. */
    ghost function LayerStart(): nat
      reads this
    {
      if lastSeparator.Some? then lastSeparator.value + 1 else 0
    }

    constructor (capacity: nat)
      requires 0 < capacity
      ensures Valid()
      ensures size == 0 && lastSeparator == None && depth == 0
    {
      positions := seq(capacity, _ => CLEARED);
      size, lastSeparator, depth := 0, None, 0;
    }

    method ResizeIfNeeded()
      requires 0 < |positions| && size <= |positions|
      modifies this`positions
      ensures size < |positions| && |old(positions)| <= |positions|
      ensures positions[..|old(positions)|] == old(positions)
    {
      if size < |positions| {
        return;
      }
      positions := positions + seq(|positions|, _ => CLEARED);
    }

    method PushBasic(schema: Schema, parent: Option<nat>) returns (index: nat)
      requires Valid()
      modifies this`positions, this`size
      ensures Valid()
      ensures index == old(size) && size == index + 1
      ensures |old(positions)| <= |positions|
      ensures positions[..index] == old(positions[..size])
      ensures positions[index] == BasicPosition(schema, parent, LayerStart(), depth)
    {
      ResizeIfNeeded();
      index := size;
      var layerStart := if lastSeparator.Some? then lastSeparator.value + 1 else 0;
      positions := positions[index := BasicPosition(schema, parent, layerStart, depth)];
      size := size + 1;
    }

    method PushComposed(schema: Schema, parent: nat, composition: CompositionType) returns (index: nat)
      requires Valid()
      modifies this`positions, this`size
      ensures Valid()
      ensures index == old(size) && size == index + 1
      ensures |old(positions)| <= |positions|
      ensures positions[..index] == old(positions[..size])
      ensures positions[index] == ComposedPosition(Child(composition, schema), parent, LayerStart(), depth)
    {
      ResizeIfNeeded();
      index := size;
      var layerStart := if lastSeparator.Some? then lastSeparator.value + 1 else 0;
      positions := positions[index := ComposedPosition(Child(composition, schema), parent, layerStart, depth)];
      size := size + 1;
    }

    method PushSeparator()
      requires Valid()
      modifies this
      ensures Valid()
      ensures size == old(size) + 1 && depth == old(depth) + 1 && lastSeparator == Some(old(size))
      ensures |old(positions)| <= |positions|
      ensures positions[..old(size)] == old(positions[..size])
      ensures positions[old(size)].positionType == Sentinel
      ensures positions[old(size)].parent == old(lastSeparator)
    {
      ResizeIfNeeded();
      positions := positions[size := CLEARED.(
        positionType := Sentinel, parent := lastSeparator, layerStart := size)];
      lastSeparator := Some(size);
      size := size + 1;
      depth := depth + 1;
    }

    /** Drops the top layer together with its sentinel; the memory itself is not touched. */
    method LayerRemove()
      requires Valid()
      modifies this`size, this`depth, this`lastSeparator
      ensures old(lastSeparator).Some? ==>
                && size == old(lastSeparator).value
                && depth == old(depth) - 1
                && lastSeparator == positions[old(lastSeparator).value].parent
      ensures old(lastSeparator).None? ==> size == 0 && depth == 0 && lastSeparator == None
    {
      if lastSeparator.Some? {
        size := lastSeparator.value;
        depth := depth - 1;
        lastSeparator := positions[lastSeparator.value].parent;
      } else {
        size, depth := 0, 0;
      }
    }

    /** Start of the forward iteration: the layer start recorded in the last position. */
    method IteratorStart() returns (index: nat)
      requires Valid() && 0 < size
      ensures LayerStart() < size ==> index == LayerStart()
      ensures LayerStart() == size ==> index == size - 1 && positions[index].positionType == Sentinel
    {
      index := positions[size - 1].layerStart;
    }

    /** Forward step: stops at the end of the stack and at a sentinel. */
    method IteratorNext(index: nat) returns (position: Option<nat>, next: nat)
      requires size <= |positions|
      ensures index < size && positions[index].positionType != Sentinel ==>
                position == Some(index) && next == index + 1
      ensures index < size && positions[index].positionType == Sentinel ==> position == None
      ensures size <= index ==> position == None
    {
      position, next := None, index;
      if size <= index || positions[index].positionType == Sentinel {
        return;
      }
      position, next := Some(index), index + 1;
    }

    /** Backward step from `index`, which starts at the size of the stack. */
    method ReverseIteratorNext(index: nat, finished: bool)
      returns (position: Option<nat>, next: nat, done: bool)
      requires Valid()
      requires !finished ==> LayerStart() <= index <= size && 0 < index
      ensures !finished && LayerStart() < index ==>
                position == Some(index - 1) && next == index - 1 && done == (next == 0)
      ensures finished || index == LayerStart() ==> position == None
    {
      position, next, done := None, index, finished;
      if finished {
        return;
      }
      next := index - 1;
      var isSentinel := positions[next].positionType == Sentinel;
      if isSentinel || next == 0 {
        done := true;
        if isSentinel {
          return;
        }
      }
      position := Some(next);
    }
  }
}
