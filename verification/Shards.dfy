/** Keys and metadata of tensor shards. */
module Shards {
  import opened Boxes

  datatype ShardedKey = ShardedKey(key: string, globalShape: seq<int>, globalOffset: seq<int>)

  /** An element type: its code and the bytes one element takes. */
  datatype Dtype = Dtype(code: int, itemSize: nat)

  /** The fields of ATensor that the read path uses; `|size|` is dim_num. */
  datatype TensorMeta = TensorMeta(size: seq<int>, stride: seq<int>, storageOffset: int, dtype: Dtype)

  datatype Shard = Shard(key: ShardedKey, tensor: TensorMeta)

  function BoxOf(s: Shard): Box {
    Box(s.key.globalOffset, s.tensor.size)
  }

  /** Key and tensor have the same number of dimensions and no negative size. */
  predicate Shaped(s: Shard) {
    && |s.key.globalOffset| == |s.key.globalShape| == |s.tensor.size|
    && NonNegative(s.tensor.size)
  }

  predicate AllShaped(shards: seq<Shard>) {
    forall i | 0 <= i < |shards| :: Shaped(shards[i])
  }

  /** The shard lies inside the global tensor it names. */
  predicate InsideGlobal(s: Shard) {
    Shaped(s) && InBounds(BoxOf(s), s.key.globalShape)
  }

  /** The candidates are shards of the tensor the target is part of, all inside it. */
  predicate ShardsOfSame(candidates: seq<Shard>, target: Shard) {
    && InsideGlobal(target)
    && forall i | 0 <= i < |candidates| ::
         InsideGlobal(candidates[i]) && candidates[i].key.globalShape == target.key.globalShape
  }

  /** Shards at different places of the list do not overlap. */
  ghost predicate PairwiseDisjoint(shards: seq<Shard>) {
    forall i, j | 0 <= i < j < |shards| :: Disjoint(BoxOf(shards[i]), BoxOf(shards[j]))
  }

  /** Every coordinate of the target lies in some candidate. */
  ghost predicate Covers(candidates: seq<Shard>, target: Shard) {
    forall c | Contains(BoxOf(target), c) :: exists i | 0 <= i < |candidates| :: Contains(BoxOf(candidates[i]), c)
  }
}
