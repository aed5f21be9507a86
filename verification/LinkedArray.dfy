/** The singly linked array of values (`src/jso_array.c`, `src/jso_array.h`). */
module LinkedArrays {
  import opened Options

  class Element<V> {
    var val: V
    var next: Element?<V>

    constructor (val: V, next: Element?<V>)
      ensures this.val == val && this.next == next
    {
      this.val, this.next := val, next;
    }
  }

  /** What element `i` links to. */
  ghost function After<V>(es: seq<Element<V>>, i: nat): Element?<V> {
    if i + 1 < |es| then es[i + 1] else null
  }

  class LinkedArray<V> {
    var head: Element?<V>
    var tail: Element?<V>
    var len: nat
    ghost var elements: seq<Element<V>>

    /** The elements are linked from head to tail in the order of `elements`. */
    ghost predicate Valid()
      reads this, elements
    {
      && len == |elements|
      && (forall i, j :: 0 <= i < j < |elements| ==> elements[i] != elements[j])
      && (forall i :: 0 <= i < |elements| ==> elements[i].next == After(elements, i))
      && (if elements == [] then head == null && tail == null
          else head == elements[0] && tail == elements[|elements| - 1])
    }

    ghost function Items(): (vs: seq<V>)
      reads this, elements
      ensures |vs| == |elements|
    {
      seq(|elements|, i requires 0 <= i < |elements| reads this, elements => elements[i].val)
    }

    constructor ()
      ensures Valid() && Items() == []
    {
      head, tail, len, elements := null, null, 0, [];
    }

    method Append(val: V)
      requires Valid()
      modifies this, tail
      ensures Valid() && Items() == old(Items()) + [val]
      ensures fresh(elements[|old(elements)|..]) && elements[..|old(elements)|] == old(elements)
    {
      var el := new Element<V>(val, null);
      ghost var before := elements;
      if head == null {
        head := el;
      } else {
        assert tail in elements;
        tail.next := el;
      }
      tail := el;
      len := len + 1;
      elements := elements + [el];
      forall i | 0 <= i < |elements|
        ensures elements[i].next == After(elements, i)
      {
        if i < |before| - 1 { assert before[i] != before[|before| - 1] && before[i].next == old(before[i].next); }
      }
    }

    method Push(val: V)
      requires Valid()
      modifies this
      ensures Valid() && Items() == [val] + old(Items())
      ensures fresh(elements[0]) && elements[1..] == old(elements)
    {
      var el := new Element<V>(val, head);
      head := el;
      if tail == null {
        tail := el;
      }
      len := len + 1;
      ghost var before := elements;
      elements := [el] + elements;
      assert forall i :: 0 < i < |elements| ==>
          elements[i] == before[i - 1] && After(elements, i) == After(before, i - 1);
    }

    method Pop() returns (ok: bool)
      requires Valid()
      modifies this
      ensures Valid() && (ok <==> old(Items()) != [])
      ensures Items() == if ok then old(Items())[1..] else []
      ensures ok ==> elements == old(elements)[1..]
    {
      var el := head;
      if el == null {
        return false;
      }
      len := len - 1;
      ghost var before := elements;
      assert before[0].next == After(before, 0);
      if el == tail {
        head, tail := null, null;
      } else {
        head := head.next;
      }
      elements := elements[1..];
      assert forall i :: 0 <= i < |elements| ==>
          elements[i] == before[i + 1] && After(elements, i) == After(before, i + 1);
      return true;
    }

    method Index(index: nat) returns (value: Option<V>)
      requires Valid()
      ensures value == if index < |Items()| then Some(Items()[index]) else None
    {
      if len == 0 || index >= len {
        return None;
      }
      var el := head;
      var i := 0;
      while i < index
        invariant 0 <= i <= index && el == elements[i]
      {
        assert elements[i].next == After(elements, i);
        el := el.next;
        i := i + 1;
      }
      value := Some(el.val);
    }
  }
}
