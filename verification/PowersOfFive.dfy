/** Multiplication by powers of five with a growing cache (`src/jso_dg_dtoa.c`, lines 925-981). */
module PowersOfFive {
  import opened Words
  import opened Bigints

  function Pow5(n: nat): (r: nat)
    ensures r > 0
  {
    if n == 0 then 1 else 5 * Pow5(n - 1)
  }

  lemma {:induction false} Pow5Add(m: nat, n: nat)
    ensures Pow5(m + n) == Pow5(m) * Pow5(n)
  {
    if m > 0 {
      Pow5Add(m - 1, n);
      assert 5 * (Pow5(m - 1) * Pow5(n)) == (5 * Pow5(m - 1)) * Pow5(n);
    }
  }

  /** Exponent of the power that node `j` of the cache holds. */
  function NodeExponent(j: nat): nat { 4 * Pow2(j) }

  /** `p5s` and the list linked through `next`: node `j` is reached after `j` steps. */
  class PowerCache {
    var chain: seq<Bigint>

    ghost predicate Valid()
      reads this, chain, set n | n in chain :: n.x
    {
      forall j :: 0 <= j < |chain| ==> IsNode(chain[j], j)
    }

    constructor ()
      ensures Valid() && chain == []
    {
      chain := [];
    }
  }

  ghost predicate IsNode(n: Bigint, j: nat)
    reads n, n.x
  {
    n.Valid() && n.Normal() && 0 < n.wds && n.Value() == Pow5(NodeExponent(j))
  }

  /** The number shares no memory with the cache. */
  ghost predicate Apart(b: Bigint, cache: PowerCache)
    reads cache
  {
    forall n :: n in cache.chain ==> n != b && n.x != b.x
  }

  lemma Pow5Low()
    ensures Pow5(0) == 1 && Pow5(1) == 5 && Pow5(2) == 25 && Pow5(3) == 125 && Pow5(4) == 625
  {
    assert Pow5(1) == 5 && Pow5(2) == 25;
    assert Pow5(3) == 125;
  }

  /** What is left of the exponent after the bit for node `p`. */
  lemma Halve(p: nat, k: nat)
    ensures Pow5(NodeExponent(p) * k)
         == (if k % 2 == 1 then Pow5(NodeExponent(p)) else 1) * Pow5(NodeExponent(p + 1) * (k / 2))
  {
    var e, h := NodeExponent(p), k / 2;
    assert NodeExponent(p + 1) == 2 * e;
    assert (2 * e) * h == e * (2 * h);
    if k % 2 == 1 {
      assert e * k == e + e * (2 * h);
      Pow5Add(e, e * (2 * h));
    }
  }

  lemma NextNode(p: nat)
    ensures Pow5(NodeExponent(p)) * Pow5(NodeExponent(p)) == Pow5(NodeExponent(p + 1))
  {
    Pow5Add(NodeExponent(p), NodeExponent(p));
  }

  lemma MulRegroup(a: int, b: int, c: int)
    ensures (a * b) * c == a * (b * c)
  {
  }

  /** Follows the link to node `p`, and makes the node when the list ends before it. */
  method EnsureNode(cache: PowerCache, p: nat, ghost b: Bigint)
    requires cache.Valid() && p <= |cache.chain| && Apart(b, cache)
    modifies cache
    ensures cache.Valid() && p < |cache.chain| && old(cache.chain) <= cache.chain && Apart(b, cache)
    ensures forall n :: n in cache.chain && n !in old(cache.chain) ==> fresh(n) && fresh(n.x)
  {
    hide Pow2, Pow5, Val, NodeExponent;
    if p < |cache.chain| {
      return;
    }
    var node: Bigint;
    if p == 0 {
      node := I2b(625);
      FirstNode();
    } else {
      var p5 := cache.chain[p - 1];
      assert IsNode(p5, p - 1);
      node := Mult(p5, p5);
      NextNode(p - 1);
    }
    ghost var before := cache.chain;
    assert forall j :: 0 <= j < |before| ==> IsNode(before[j], j);
    assert IsNode(node, p);
    cache.chain := cache.chain + [node];
    assert forall n :: n in cache.chain && n !in before ==> n == node;
  }

  lemma FirstNode()
    ensures Pow5(NodeExponent(0)) == 625
  {
    Pow5Low();
  }

  /** The number still to be multiplied by the power that the remaining bits stand for. */
  ghost predicate Remaining(value: nat, p: nat, k: nat, total: nat) {
    value * Pow5(NodeExponent(p) * k) == total
  }

  lemma RemainingStarts(b: nat, value: nat, q: nat, i: nat)
    requires value == b * Pow5(i)
    ensures Remaining(value, 0, q, b * Pow5(i + 4 * q))
  {
    assert NodeExponent(0) == 4;
    hide Pow5, NodeExponent;
    assert NodeExponent(0) * q == 4 * q;
    Pow5Add(i, 4 * q);
    MulRegroup(b, Pow5(i), Pow5(4 * q));
  }

  lemma RemainingNext(value: nat, value': nat, p: nat, k: nat, total: nat)
    requires Remaining(value, p, k, total)
    requires value' == if k % 2 == 1 then value * Pow5(NodeExponent(p)) else value
    ensures Remaining(value', p + 1, k / 2, total)
  {
    hide Pow5, NodeExponent;
    Halve(p, k);
    MulRegroup(value, Pow5(NodeExponent(p)), Pow5(NodeExponent(p + 1) * (k / 2)));
  }

  lemma RemainingEnds(value: nat, p: nat, total: nat)
    requires Remaining(value, p, 0, total)
    ensures value == total
  {
  }

  method TimesNode(b: Bigint, p5: Bigint, ghost p: nat) returns (r: Bigint)
    requires b.Valid() && IsNode(p5, p)
    ensures fresh(r) && fresh(r.x) && r.Valid() && r.Normal()
    ensures r.Value() == b.Value() * Pow5(NodeExponent(p))
  {
    hide Val, Pow2, Pow5, NodeExponent;
    r := Mult(b, p5);
  }

  /** The loop over the bits of the exponent. */
  method MultiplyBits(cache: PowerCache, b0: Bigint, k0: nat, ghost total: nat) returns (b: Bigint)
    requires cache.Valid() && b0.Valid() && b0.Normal() && Apart(b0, cache)
    requires 0 < k0 && Remaining(b0.Value(), 0, k0, total)
    modifies cache
    ensures cache.Valid() && old(cache.chain) <= cache.chain
    ensures b.Valid() && b.Normal() && (b == b0 || (fresh(b) && fresh(b.x))) && Apart(b, cache)
    ensures b.Value() == total
    ensures forall n :: n in cache.chain && n !in old(cache.chain) ==> fresh(n) && fresh(n.x)
  {
    hide Pow2, Pow5, Val, NodeExponent, Remaining, IsNode;
    b := b0;
    var k, p := k0, 0;
    EnsureNode(cache, 0, b);
    while true
      invariant cache.Valid() && old(cache.chain) <= cache.chain && p < |cache.chain|
      invariant b.Valid() && b.Normal() && (b == b0 || (fresh(b) && fresh(b.x))) && Apart(b, cache)
      invariant forall n :: n in cache.chain && n !in old(cache.chain) ==> fresh(n) && fresh(n.x)
      invariant 0 < k && Remaining(b.Value(), p, k, total)
      decreases k
    {
      ghost var value := b.Value();
      if k % 2 == 1 {
        b := TimesNode(b, cache.chain[p], p);
      }
      RemainingNext(value, b.Value(), p, k, total);
      k := k / 2;
      if k == 0 {
        break;
      }
      EnsureNode(cache, p + 1, b);
      p := p + 1;
    }
    RemainingEnds(b.Value(), p + 1, total);
  }

  method Pow5mult(cache: PowerCache, b0: Bigint, k0: nat) returns (b: Bigint)
    requires cache.Valid() && b0.Valid() && b0.Normal() && Apart(b0, cache)
    modifies cache, b0, b0.x
    ensures cache.Valid() && old(cache.chain) <= cache.chain
    ensures b.Valid() && b.Normal() && (b == b0 || (fresh(b) && fresh(b.x))) && Apart(b, cache)
    ensures b.Value() == old(b0.Value()) * Pow5(k0)
    ensures forall n :: n in cache.chain && n !in old(cache.chain) ==> fresh(n) && fresh(n.x)
  {
    hide Pow2, Pow5, Val, NodeExponent, Remaining, IsNode;
    b := b0;
    var i := k0 % 4;
    Pow5Low();
    if i != 0 {
      b := Multadd(b, if i == 1 then 5 else if i == 2 then 25 else 125, 0);
    }
    ghost var total := old(b0.Value()) * Pow5(k0);
    RemainingStarts(old(b0.Value()), b.Value(), k0 / 4, i);
    assert k0 == i + 4 * (k0 / 4);
    var k := k0 / 4;
    if k == 0 {
      RemainingEnds(b.Value(), 0, total);
      return;
    }
    b := MultiplyBits(cache, b, k, total);
  }
}
