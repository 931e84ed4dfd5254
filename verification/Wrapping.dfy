/** Exactly when the coverage check is right, for shards that may leave their tensor. Such a shard wraps
    around: its elements get the flat indices of coordinates it does not hold. */
module Wrapping {
  import opened Boxes
  import opened Shards
  import opened Coverage

  ghost predicate Held(candidates: seq<Shard>, g: seq<int>) {
    exists i | 0 <= i < |candidates| :: Contains(BoxOf(candidates[i]), g)
  }

  /** No coordinate of the tensor is hit by shards of which none holds it. */
  ghost predicate NothingWraps(candidates: seq<Shard>, shape: seq<int>)
    requires AllShaped(candidates)
  {
    forall g | InShape(g, shape) && AnyHits(candidates, Flat(g, shape)) :: Held(candidates, g)
  }

  /** The target is a part, with elements, of a tensor of this shape. */
  predicate PartOfTensor(target: Shard, shape: seq<int>) {
    InsideGlobal(target) && target.key.globalShape == shape && Positive(target.tensor.size)
  }

  /** For shards of one tensor, inside it or not: the check equals coverage for every target with elements
      if and only if no shard wraps around to a coordinate that none of them holds. */
  lemma ExactUnlessWrapped(candidates: seq<Shard>, shape: seq<int>)
    requires AllShaped(candidates) && forall i | 0 <= i < |candidates| :: candidates[i].key.globalShape == shape
    ensures NothingWraps(candidates, shape) <==>
            forall target | PartOfTensor(target, shape) :: FlatAccepts(candidates, target) <==> Covers(candidates, target)
  {
    if NothingWraps(candidates, shape) {
      forall target | PartOfTensor(target, shape)
        ensures FlatAccepts(candidates, target) <==> Covers(candidates, target)
      {
        ExactFor(candidates, target);
      }
    }
    if forall target | PartOfTensor(target, shape) :: FlatAccepts(candidates, target) <==> Covers(candidates, target) {
      forall g | InShape(g, shape) && AnyHits(candidates, Flat(g, shape))
        ensures Held(candidates, g)
      {
        OneElement(candidates, g, shape);
      }
    }
  }

  lemma ExactFor(candidates: seq<Shard>, target: Shard)
    requires AllShaped(candidates) && PartOfTensor(target, target.key.globalShape)
    requires forall i | 0 <= i < |candidates| :: candidates[i].key.globalShape == target.key.globalShape
    requires NothingWraps(candidates, target.key.globalShape)
    ensures FlatAccepts(candidates, target) <==> Covers(candidates, target)
  {
    var shape := target.key.globalShape;
    AcceptsExactly(candidates, target);
    forall g | Contains(BoxOf(target), g)
      ensures AnyHits(candidates, Flat(g, shape)) <==> Held(candidates, g)
    {
      InsideIsInShape(target, g);
      if i :| 0 <= i < |candidates| && Contains(BoxOf(candidates[i]), g) {
        assert Hits(candidates[i], Flat(g, shape));
      }
    }
  }

  /** The target that is the single element at g. */
  function ElementAt(g: seq<int>, shape: seq<int>): Shard {
    var ones := seq(|g|, i => 1);
    Shard(ShardedKey("w", shape, g), TensorMeta(ones, ones, 0, Dtype(6, 4)))
  }

  /** If the check is right for the target that is the single element at g, then g, when hit, is held. */
  lemma OneElement(candidates: seq<Shard>, g: seq<int>, shape: seq<int>)
    requires AllShaped(candidates) && InShape(g, shape) && AnyHits(candidates, Flat(g, shape))
    ensures PartOfTensor(ElementAt(g, shape), shape) && FlatAccepts(candidates, ElementAt(g, shape))
    ensures Covers(candidates, ElementAt(g, shape)) <==> Held(candidates, g)
  {
    var target := ElementAt(g, shape);
    forall c | Contains(BoxOf(target), c)
      ensures c == g
    {
      forall i | 0 <= i < |g|
        ensures c[i] == g[i]
      {
        assert BoxOf(target).offset[i] <= c[i] < BoxOf(target).offset[i] + BoxOf(target).size[i];
      }
    }
    assert Contains(BoxOf(target), g);
    AcceptsExactly(candidates, target);
  }

  /** Shards inside the tensor do not wrap. */
  lemma InsideNothingWraps(candidates: seq<Shard>, shape: seq<int>)
    requires forall i | 0 <= i < |candidates| :: InsideGlobal(candidates[i]) && candidates[i].key.globalShape == shape
    ensures AllShaped(candidates) && NothingWraps(candidates, shape)
  {
    forall g | InShape(g, shape) && AnyHits(candidates, Flat(g, shape))
      ensures Held(candidates, g)
    {
      var i :| 0 <= i < |candidates| && Hits(candidates[i], Flat(g, shape));
      var c :| Contains(BoxOf(candidates[i]), c) && Flat(c, shape) == Flat(g, shape);
      InsideIsInShape(candidates[i], c);
      FlatInjective(c, g, shape);
    }
  }

  /** A shard that sticks out on the right wraps into the next row: a target it does not hold passes. */
  lemma OutOfBoundsWraps()
    ensures Shaped(Strip(0, 1, 2)) && !NothingWraps([Strip(0, 1, 2)], [2, 2])
  {
    var shards := [Strip(0, 1, 2)];
    OutOfBoundsAccepted();
    OneRow(0, 1, 2);
    assert AllShaped(shards) && PartOfTensor(Strip(1, 0, 1), [2, 2]);
    ExactUnlessWrapped(shards, [2, 2]);
  }
}
