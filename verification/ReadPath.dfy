/** The read path of an inference node: find the remote shards of a target, fetch them into a
    staging bucket and copy the overlapping parts into the target. */
module ReadPath {
  import opened Boxes
  import opened Shards
  import opened CopyPlan
  import opened Pruning
  import opened NodeEntries

  type Byte = b: int | 0 <= b < 256

  /** TensorRDMAInfo: a registered buffer at a node and the tensor that lives in it. */
  datatype Replica = Replica(addr: int, size: nat, rkey: string, node: NodeInfo, tensor: TensorMeta)

  type TransferMeta = map<ShardedKey, seq<Replica>>

  /** Contents of the remote buffers, by node and base address. */
  type Remote = map<(NodeInfo, int), seq<Byte>>

  /** A remote shard to fetch: its own key, the key after pruning, and what is left of the tensor. */
  datatype RemoteShard = RemoteShard(raw: ShardedKey, adjusted: ShardedKey, tensor: TensorMeta)

  /** A tensor view on the staging bucket. */
  datatype Staged = Staged(at: nat, tensor: TensorMeta)

  function ByteSize(t: TensorMeta): int {
    Product(t.size) * t.dtype.itemSize
  }

  // ---------- choosing what to fetch ----------

  /** What the fetched list promises about one entry made from candidate `c`. */
  ghost predicate FetchedFrom(r: RemoteShard, c: Shard, target: Shard) {
    && Shaped(c) && Shaped(target) && c.key.globalShape == target.key.globalShape
    && r.raw == c.key
    && r.adjusted.key == c.key.key && r.adjusted.globalShape == c.key.globalShape
    && |r.adjusted.globalOffset| == |c.key.globalOffset| == |r.tensor.size| == |c.tensor.stride|
    && r.tensor.stride == c.tensor.stride && r.tensor.dtype == c.tensor.dtype
    && RowMajor(r.tensor) && Positive(r.tensor.size)
    // the fetched part lies in the shard, and element x of it is the shard's element there
    && (forall x | InShape(x, r.tensor.size) :: SameElement(c, r.tensor, r.adjusted.globalOffset, x))
    // nothing the target needs was cut off
    && (forall g | Contains(BoxOf(target), g) && Contains(BoxOf(c), g) ::
          Contains(Box(r.adjusted.globalOffset, r.tensor.size), g))
  }

  /** The target takes whole rows of the shard: behind the first dimension it reaches over all of it. */
  predicate TakesRows(c: Shard, target: Shard)
    requires Shaped(c) && Shaped(target) && |c.tensor.size| == |target.tensor.size|
  {
    forall i | 1 <= i < |c.tensor.size| ::
      && target.key.globalOffset[i] <= c.key.globalOffset[i]
      && c.key.globalOffset[i] + c.tensor.size[i] <= target.key.globalOffset[i] + target.tensor.size[i]
  }

  /** Rows in front of what the target needs are cut off. */
  predicate CutsRows(c: Shard, target: Shard)
    requires Shaped(c) && Shaped(target) && |c.tensor.size| == |target.tensor.size|
  {
    c.tensor.size != [] && target.key.globalOffset[0] > c.key.globalOffset[0] && TakesRows(c, target)
  }

  /** The shard and the target have a common part. */
  predicate Meets(c: Shard, target: Shard) {
    && Shaped(c) && Shaped(target) && |c.tensor.size| == |target.tensor.size|
    && Positive(Intersect(BoxOf(c), BoxOf(target)).size)
  }

  /** What is fetched of a shard: with pruning, its common part with a target that takes whole rows of
      it; otherwise all of it. */
  function Part(c: Shard, target: Shard, prune: bool): Box
    requires Meets(c, target)
  {
    var both := Intersect(BoxOf(c), BoxOf(target));
    if prune && TakesRows(c, target) then both else BoxOf(c)
  }

  function PartOf(r: RemoteShard): Box {
    Box(r.adjusted.globalOffset, r.tensor.size)
  }

  /** The entry was made from candidate `c`, which meets the target. */
  ghost predicate MadeFrom(r: RemoteShard, c: Shard, target: Shard, prune: bool) {
    FetchedFrom(r, c, target) && Meets(c, target) && PartOf(r) == Part(c, target, prune)
  }

  /** A part starts where its shard does, unless rows are cut off. */
  lemma StartsUnlessCut(c: Shard, target: Shard, prune: bool)
    requires Meets(c, target)
    ensures Part(c, target, prune).offset == c.key.globalOffset <==> !(prune && CutsRows(c, target))
  {
    var both := Intersect(BoxOf(c), BoxOf(target));
    forall i | 0 <= i < |both.size|
      ensures both.offset[i] == Max(c.key.globalOffset[i], target.key.globalOffset[i])
    {
      assert both.offset[i] == Max(BoxOf(c).offset[i], BoxOf(target).offset[i]);
    }
  }

  ghost predicate FromSome(r: RemoteShard, candidates: seq<Shard>, target: Shard, prune: bool) {
    exists i :: 0 <= i < |candidates| && MadeFrom(r, candidates[i], target, prune)
  }

  /** The entries come from different candidates, one for each that meets the target. */
  ghost predicate FetchList(list: seq<RemoteShard>, candidates: seq<Shard>, target: Shard, prune: bool) {
    && (forall k | 0 <= k < |list| :: FromSome(list[k], candidates, target, prune))
    && (forall j, k | 0 <= j < k < |list| :: list[j].raw != list[k].raw)
    && (forall i | 0 <= i < |candidates| && Meets(candidates[i], target) :: Fetches(list, candidates[i].key))
    && (forall g | Contains(BoxOf(target), g) :: InParts(list, g))
  }

  /** A shard of this key is on the list. */
  predicate Fetches(list: seq<RemoteShard>, key: ShardedKey) {
    exists k | 0 <= k < |list| :: list[k].raw == key
  }

  /** Some part on the list holds the coordinate. */
  predicate InParts(list: seq<RemoteShard>, g: seq<int>) {
    exists k | 0 <= k < |list| :: Contains(PartOf(list[k]), g)
  }

  /** The pruning step of one copy operation, with its meaning. */
  method PruneOne(op: CopyOperation, candidates: seq<Shard>, target: Shard, prune: bool) returns (r: RemoteShard)
    requires ShardsOfSame(candidates, target) && CopiesOverlap(op, candidates, target)
    requires RowMajor(candidates[op.candidateIndex].tensor) && target.tensor.size != []
    ensures MadeFrom(r, candidates[op.candidateIndex], target, prune)
    ensures !(prune && TakesRows(candidates[op.candidateIndex], target)) ==> Unpruned(r, candidates[op.candidateIndex])
  {
    var c := candidates[op.candidateIndex];
    CopyInBounds(op, candidates, target);
    var t := new ATensor(c.tensor);
    var key := new ShardKey(c.key);
    var adjusted := false;
    if prune {
      adjusted := TryAdjustGlobalOffset(t, op.copyShape, op.srcOffset, key);
    }
    r := RemoteShard(c.key, key.Value(), t.Meta());
    MeetsTarget(op, c, target);
    ContiguousIsRows(c, target);
    if adjusted {
      PrunedMeaning(op, c, target);
    } else {
      UnprunedMeaning(op, c, target);
    }
  }

  /** In a row-major shard the test of IsContiguousShard asks for whole rows. */
  lemma ContiguousIsRows(c: Shard, target: Shard)
    requires Meets(c, target) && RowMajor(c.tensor)
    ensures Contiguous(c.tensor, Intersect(BoxOf(c), BoxOf(target)).size) <==> TakesRows(c, target)
  {
    var both := Intersect(BoxOf(c), BoxOf(target));
    forall i | 1 <= i < |c.tensor.size|
      ensures both.size[i] == c.tensor.size[i] <==>
              && target.key.globalOffset[i] <= c.key.globalOffset[i]
              && c.key.globalOffset[i] + c.tensor.size[i] <= target.key.globalOffset[i] + target.tensor.size[i]
    {
      assert both.size[i] == Min(BoxOf(c).offset[i] + BoxOf(c).size[i], BoxOf(target).offset[i] + BoxOf(target).size[i])
                           - Max(BoxOf(c).offset[i], BoxOf(target).offset[i]);
    }
  }

  lemma MeetsTarget(op: CopyOperation, c: Shard, target: Shard)
    requires InsideGlobal(c) && InsideGlobal(target) && c.key.globalShape == target.key.globalShape
    requires CopiesOverlap(op.(candidateIndex := 0), [c], target) && target.tensor.size != []
    ensures Meets(c, target) && Intersect(BoxOf(c), BoxOf(target)) == Box(Plus(c.key.globalOffset, op.srcOffset), op.copyShape)
  {
  }

  lemma PrunedMeaning(op: CopyOperation, c: Shard, target: Shard)
    requires InsideGlobal(c) && InsideGlobal(target) && c.key.globalShape == target.key.globalShape
    requires CopiesOverlap(op.(candidateIndex := 0), [c], target)
    requires InBounds(Fetched(op), c.tensor.size) && RowMajor(c.tensor) && target.tensor.size != []
    requires Contiguous(c.tensor, op.copyShape)
    ensures FetchedFrom(RemoteShard(c.key, Moved(c.key, op.srcOffset), Pruned(c.tensor, op.copyShape, op.srcOffset)), c, target)
    ensures Moved(c.key, op.srcOffset).globalOffset == Plus(c.key.globalOffset, op.srcOffset)
  {
    var t, key := Pruned(c.tensor, op.copyShape, op.srcOffset), Moved(c.key, op.srcOffset);
    forall x | InShape(x, op.copyShape)
      ensures SameElement(c, t, key.globalOffset, x)
    {
      PrunedElement(c, op.copyShape, op.srcOffset, x);
    }
    var zero := seq(|op.copyShape|, i => 0);
    assert InShape(zero, op.copyShape);
    PrunedElement(c, op.copyShape, op.srcOffset, zero);
    PartIsFetched(op, c, target, t.storageOffset, key.globalOffset);
  }

  /** Element x of a part at `offset` is the shard's element at the same global coordinate. */
  predicate SameElement(c: Shard, t: TensorMeta, offset: seq<int>, x: seq<int>) {
    && |x| == |offset| == |c.key.globalOffset| == |t.stride| == |c.tensor.stride|
    && var y := Minus(Plus(offset, x), c.key.globalOffset);
    && InShape(y, c.tensor.size) && ElementIndex(t, x) == ElementIndex(c.tensor, y)
  }

  lemma PartIsFetched(op: CopyOperation, c: Shard, target: Shard, start: int, offset: seq<int>)
    requires InsideGlobal(c) && InsideGlobal(target) && c.key.globalShape == target.key.globalShape
    requires CopiesOverlap(op.(candidateIndex := 0), [c], target) && RowMajor(c.tensor)
    requires Contiguous(c.tensor, op.copyShape) && offset == Plus(c.key.globalOffset, op.srcOffset)
    requires forall x | InShape(x, op.copyShape) ::
      SameElement(c, c.tensor.(size := op.copyShape, storageOffset := start), offset, x)
    ensures FetchedFrom(
              RemoteShard(c.key, c.key.(globalOffset := offset), c.tensor.(size := op.copyShape, storageOffset := start)),
              c, target)
  {
    PrunedIsRowMajor(c.tensor, op.copyShape, start);
    assert Box(offset, op.copyShape) == Intersect(BoxOf(c), BoxOf(target));
  }

  lemma PrunedElement(c: Shard, copyShape: seq<int>, srcOffset: seq<int>, x: seq<int>)
    requires Shaped(c) && Contiguous(c.tensor, copyShape) && InBounds(Box(srcOffset, copyShape), c.tensor.size)
    requires c.tensor.size != [] && InShape(x, copyShape)
    ensures var t, offset := Pruned(c.tensor, copyShape, srcOffset), Moved(c.key, srcOffset).globalOffset;
            offset == Plus(c.key.globalOffset, srcOffset) && SameElement(c, t, offset, x)
  {
    PruningKeepsElements(c.tensor, copyShape, srcOffset, c.key, x);
    var offset := Plus(c.key.globalOffset, srcOffset);
    assert Minus(Plus(offset, x), c.key.globalOffset) == Plus(srcOffset, x);
  }

  lemma UnprunedMeaning(op: CopyOperation, c: Shard, target: Shard)
    requires InsideGlobal(c) && InsideGlobal(target) && c.key.globalShape == target.key.globalShape
    requires CopiesOverlap(op.(candidateIndex := 0), [c], target)
    requires InBounds(Fetched(op), c.tensor.size) && RowMajor(c.tensor)
    ensures FetchedFrom(RemoteShard(c.key, c.key, c.tensor), c, target)
  {
    forall i | 0 <= i < |c.tensor.size|
      ensures 0 < c.tensor.size[i]
    {
      assert 0 <= Fetched(op).offset[i] && Fetched(op).offset[i] + Fetched(op).size[i] <= c.tensor.size[i];
    }
    forall x | InShape(x, c.tensor.size)
      ensures Minus(Plus(c.key.globalOffset, x), c.key.globalOffset) == x
    {
    }
  }

  /** GetAllTensorShards and the filter by tensor name: every shard with the metadata of its last
      replica, in any order. */
  method CandidatesOf(meta: TransferMeta, name: string) returns (list: seq<Shard>)
    requires forall key | key in meta :: meta[key] != []
    ensures forall k | 0 <= k < |list| :: list[k].key in meta && list[k].key.key == name
    ensures forall k | 0 <= k < |list| :: list[k].tensor == Last(meta[list[k].key]).tensor
    ensures forall j, k | 0 <= j < k < |list| :: list[j].key != list[k].key
    ensures forall key | key in meta && key.key == name :: Shard(key, Last(meta[key]).tensor) in list
  {
    list := [];
    var rest := meta.Keys;
    while rest != {}
      invariant rest <= meta.Keys
      invariant forall k | 0 <= k < |list| :: list[k].key in meta && list[k].key !in rest && list[k].key.key == name
      invariant forall k | 0 <= k < |list| :: list[k].tensor == Last(meta[list[k].key]).tensor
      invariant forall j, k | 0 <= j < k < |list| :: list[j].key != list[k].key
      invariant forall key | key in meta && key !in rest && key.key == name ::
        Shard(key, Last(meta[key]).tensor) in list
      decreases rest
    {
      var key :| key in rest;
      rest := rest - {key};
      if key.key == name {
        list := list + [Shard(key, Last(meta[key]).tensor)];
      }
    }
  }

  function Last(replicas: seq<Replica>): Replica
    requires replicas != []
  {
    replicas[|replicas| - 1]
  }

  /** What the senders of tensor `name` guarantee: shards inside the tensor, contiguous copies, at
      least one replica each. */
  ghost predicate GoodShards(meta: TransferMeta, name: string) {
    && (forall key | key in meta :: meta[key] != [])
    && (forall key | key in meta && key.key == name ::
          var shard := Shard(key, Last(meta[key]).tensor);
          InsideGlobal(shard) && RowMajor(shard.tensor) && shard.tensor.size != [])
  }

  /** Shards of the tensor under different keys do not overlap. */
  ghost predicate DisjointShards(meta: TransferMeta, name: string)
    requires GoodShards(meta, name)
  {
    forall j, k | j in meta && k in meta && j.key == name && k.key == name && j != k ::
      Disjoint(BoxOf(Shard(j, Last(meta[j]).tensor)), BoxOf(Shard(k, Last(meta[k]).tensor)))
  }

  /** GetRemoteTensorShards without its cache of earlier answers; `candidates` is the list it chose from. */
  method GetRemoteTensorShards(meta: TransferMeta, target: Shard, prune: bool)
    returns (v: Verdict, list: seq<RemoteShard>, candidates: seq<Shard>)
    requires GoodShards(meta, target.key.key)
    requires |target.key.globalOffset| == |target.key.globalShape|
    requires NonNegative(target.key.globalOffset) && NonNegative(target.tensor.size)
    ensures forall k | 0 <= k < |candidates| ::
      && candidates[k].key in meta && candidates[k].key.key == target.key.key
      && candidates[k].tensor == Last(meta[candidates[k].key]).tensor
    ensures forall key | key in meta && key.key == target.key.key :: Shard(key, Last(meta[key]).tensor) in candidates
    ensures v.Valid? ==> FetchList(list, candidates, target, prune)
    ensures v.Valid? && !prune ==> forall k | 0 <= k < |list| ::
      list[k].raw in meta && list[k].adjusted == list[k].raw && list[k].tensor == Last(meta[list[k].raw]).tensor
    ensures v.Valid? ==> ShardsOfSame(candidates, target) && Covers(candidates, target)
    ensures v.Valid? ==> forall k | 0 <= k < |candidates| :: candidates[k].tensor.dtype == target.tensor.dtype
    ensures Positive(target.tensor.size) && candidates != [] && ShardsOfSame(candidates, target)
            && Covers(candidates, target)
            && (forall i | 0 <= i < |candidates| :: candidates[i].tensor.dtype == target.tensor.dtype)
            ==> v.Valid?
  {
    var found := CandidatesOf(meta, target.key.key);
    candidates := found;
    list := [];
    v := ValidateCandidateFilterParams(found, target);
    if !v.Valid? {
      return;
    }
    assert target.tensor.size != [] by {
      assert |found[0].tensor.size| == |target.tensor.size|;
    }
    var ops := FindCoveringCandidatesUnsafe(found, target);
    list := PruneAll(ops, found, target, prune);
    PlanIsFetchList(list, ops, found, target, prune);
  }

  /** The shard itself, nothing cut off. */
  predicate Unpruned(r: RemoteShard, c: Shard) {
    r == RemoteShard(c.key, c.key, c.tensor)
  }

  /** The loop over the copy operations. */
  method PruneAll(ops: seq<CopyOperation>, found: seq<Shard>, target: Shard, prune: bool) returns (list: seq<RemoteShard>)
    requires ShardsOfSame(found, target) && IsPlan(ops, found, target) && target.tensor.size != []
    requires forall k | 0 <= k < |found| :: RowMajor(found[k].tensor)
    ensures |list| == |ops|
    ensures forall j | 0 <= j < |ops| :: MadeFrom(list[j], found[ops[j].candidateIndex], target, prune)
    ensures !prune ==> forall j | 0 <= j < |ops| :: Unpruned(list[j], found[ops[j].candidateIndex])
  {
    list := [];
    for k := 0 to |ops|
      invariant |list| == k
      invariant forall j | 0 <= j < k :: MadeFrom(list[j], found[ops[j].candidateIndex], target, prune)
      invariant !prune ==> forall j | 0 <= j < k :: Unpruned(list[j], found[ops[j].candidateIndex])
    {
      assert CopiesOverlap(ops[k], found, target);
      var r := PruneOne(ops[k], found, target, prune);
      list := list + [r];
    }
  }

  lemma PlanIsFetchList(list: seq<RemoteShard>, ops: seq<CopyOperation>, candidates: seq<Shard>, target: Shard, prune: bool)
    requires ShardsOfSame(candidates, target) && IsPlan(ops, candidates, target) && Covers(candidates, target)
    requires forall j, k | 0 <= j < k < |candidates| :: candidates[j].key != candidates[k].key
    requires |list| == |ops|
    requires forall j | 0 <= j < |ops| :: MadeFrom(list[j], candidates[ops[j].candidateIndex], target, prune)
    ensures FetchList(list, candidates, target, prune)
  {
    forall k | 0 <= k < |list|
      ensures FromSome(list[k], candidates, target, prune)
    {
      assert MadeFrom(list[k], candidates[ops[k].candidateIndex], target, prune);
    }
    DifferentEntries(list, ops, candidates, target, prune);
    forall i | 0 <= i < |candidates| && Meets(candidates[i], target)
      ensures Fetches(list, candidates[i].key)
    {
      var both := Intersect(BoxOf(candidates[i]), BoxOf(target));
      assert Contains(both, both.offset);
      EntryFor(list, ops, candidates, target, prune, i, both.offset);
    }
    forall g | Contains(BoxOf(target), g)
      ensures InParts(list, g)
    {
      var i :| 0 <= i < |candidates| && Contains(BoxOf(candidates[i]), g);
      EntryFor(list, ops, candidates, target, prune, i, g);
    }
  }

  lemma DifferentEntries(list: seq<RemoteShard>, ops: seq<CopyOperation>, candidates: seq<Shard>, target: Shard, prune: bool)
    requires ShardsOfSame(candidates, target) && IsPlan(ops, candidates, target) && |list| == |ops|
    requires forall j, k | 0 <= j < k < |candidates| :: candidates[j].key != candidates[k].key
    requires forall j | 0 <= j < |ops| :: MadeFrom(list[j], candidates[ops[j].candidateIndex], target, prune)
    ensures forall j, k | 0 <= j < k < |list| :: list[j].raw != list[k].raw
  {
    forall j | 0 <= j < |list|
      ensures list[j].raw == candidates[ops[j].candidateIndex].key
    {
      assert MadeFrom(list[j], candidates[ops[j].candidateIndex], target, prune);
    }
  }

  /** A candidate that shares coordinate g with the target is on the list, and its part holds g. */
  lemma EntryFor(list: seq<RemoteShard>, ops: seq<CopyOperation>, candidates: seq<Shard>, target: Shard, prune: bool,
                 i: nat, g: seq<int>)
    requires ShardsOfSame(candidates, target) && IsPlan(ops, candidates, target) && |list| == |ops|
    requires forall j | 0 <= j < |ops| :: MadeFrom(list[j], candidates[ops[j].candidateIndex], target, prune)
    requires i < |candidates| && Contains(BoxOf(candidates[i]), g) && Contains(BoxOf(target), g)
    ensures Fetches(list, candidates[i].key) && InParts(list, g)
  {
    var k :| 0 <= k < |ops| && ops[k].candidateIndex == i;
    assert MadeFrom(list[k], candidates[i], target, prune);
    assert list[k].raw == candidates[i].key && Contains(PartOf(list[k]), g);
  }

  // ---------- staging ----------

  /** For disjoint shards the adjusted keys differ, so no entry of the tensor dictionary is dropped. */
  lemma AdjustedKeysDistinct(list: seq<RemoteShard>, candidates: seq<Shard>, target: Shard, prune: bool, j: nat, k: nat)
    requires FetchList(list, candidates, target, prune)
    requires forall a, b | 0 <= a < |candidates| && 0 <= b < |candidates| && candidates[a].key != candidates[b].key ::
      Disjoint(BoxOf(candidates[a]), BoxOf(candidates[b]))
    requires j < k < |list|
    ensures list[j].adjusted != list[k].adjusted
  {
    assert FromSome(list[j], candidates, target, prune) && FromSome(list[k], candidates, target, prune);
    var a :| 0 <= a < |candidates| && MadeFrom(list[j], candidates[a], target, prune);
    var b :| 0 <= b < |candidates| && MadeFrom(list[k], candidates[b], target, prune);
    StartsInside(list[j], candidates[a], target);
    StartsInside(list[k], candidates[b], target);
    assert candidates[a].key != candidates[b].key;
    assert Disjoint(BoxOf(candidates[a]), BoxOf(candidates[b]));
  }

  lemma StartsInside(r: RemoteShard, c: Shard, target: Shard)
    requires FetchedFrom(r, c, target)
    ensures Contains(BoxOf(c), r.adjusted.globalOffset)
  {
    var zero := seq(|r.tensor.size|, i => 0);
    assert InShape(zero, r.tensor.size);
    var y := Minus(Plus(r.adjusted.globalOffset, zero), c.key.globalOffset);
    assert InShape(y, c.tensor.size);
    forall i | 0 <= i < |y|
      ensures c.key.globalOffset[i] <= r.adjusted.globalOffset[i] < c.key.globalOffset[i] + c.tensor.size[i]
    {
      assert 0 <= y[i] < c.tensor.size[i];
    }
  }

  function Sizes(list: seq<RemoteShard>): (sizes: seq<int>)
    ensures |sizes| == |list|
  {
    seq(|list|, k requires 0 <= k < |list| => ByteSize(list[k].tensor))
  }

  function Sum(sizes: seq<int>): int {
    if sizes == [] then 0 else Sum(sizes[..|sizes| - 1]) + sizes[|sizes| - 1]
  }

  function TotalBytes(list: seq<RemoteShard>): int {
    Sum(Sizes(list))
  }

  lemma {:induction false} SumPrefix(sizes: seq<int>, k: nat)
    requires k <= |sizes| && NonNegative(sizes)
    ensures 0 <= Sum(sizes[..k]) <= Sum(sizes)
    decreases |sizes|
  {
    if k == |sizes| {
      assert sizes[..k] == sizes;
      if sizes != [] {
        SumPrefix(sizes[..k - 1], k - 1);
        assert sizes[..k - 1][..k - 1] == sizes[..k - 1];
      }
    } else {
      SumPrefix(sizes[..|sizes| - 1], k);
      assert sizes[..|sizes| - 1][..k] == sizes[..k];
    }
  }

  lemma TooLarge(sizes: seq<int>, k: nat, total: nat)
    requires k < |sizes| && NonNegative(sizes) && Sum(sizes[..k]) + sizes[k] > total
    ensures Sum(sizes) > total
  {
    assert sizes[..k + 1][..k] == sizes[..k];
    SumPrefix(sizes, k + 1);
  }

  /** Byte positions where the parts start: each part ends before the next begins, the last one
      inside the bucket. */
  ghost predicate Packed(sizes: seq<int>, at: seq<nat>, total: nat) {
    && |at| == |sizes| && NonNegative(sizes)
    && (forall k | 0 <= k < |at| :: at[k] + sizes[k] <= total)
    && (forall j, k | 0 <= j < k < |at| :: at[j] + sizes[j] <= at[k])
  }

  lemma PackedStep(sizes: seq<int>, k: nat, at: seq<nat>, offset: nat, total: nat)
    requires k < |sizes| && NonNegative(sizes) && Packed(sizes[..k], at, total)
    requires Sum(sizes[..k]) == offset && offset + sizes[k] <= total
    requires forall j | 0 <= j < k :: at[j] + sizes[j] <= offset
    ensures Packed(sizes[..k + 1], at + [offset], total) && Sum(sizes[..k + 1]) == offset + sizes[k]
    ensures forall j | 0 <= j < k + 1 :: (at + [offset])[j] + sizes[j] <= offset + sizes[k]
  {
    assert sizes[..k + 1][..k] == sizes[..k];
  }

  /** The dictionary holds every part at its place, and nothing else. */
  ghost predicate Dictionary(list: seq<RemoteShard>, at: seq<nat>, tensors: map<ShardedKey, Staged>) {
    && |at| == |list|
    && (forall k | 0 <= k < |list| ::
          list[k].adjusted in tensors && tensors[list[k].adjusted] == Staged(at[k], list[k].tensor))
    && (forall key | key in tensors :: exists k | 0 <= k < |list| :: list[k].adjusted == key)
  }

  lemma DictionaryStep(list: seq<RemoteShard>, at: seq<nat>, tensors: map<ShardedKey, Staged>, r: RemoteShard, offset: nat)
    requires Dictionary(list, at, tensors)
    requires forall j | 0 <= j < |list| :: list[j].adjusted != r.adjusted
    ensures r.adjusted !in tensors
    ensures Dictionary(list + [r], at + [offset], tensors[r.adjusted := Staged(offset, r.tensor)])
  {
    var more := list + [r];
    forall key | key in tensors || key == r.adjusted
      ensures exists k | 0 <= k < |more| :: more[k].adjusted == key
    {
      if key == r.adjusted {
        assert more[|list|].adjusted == key;
      } else {
        var k :| 0 <= k < |list| && list[k].adjusted == key;
        assert more[k].adjusted == key;
      }
    }
  }

  /** The first k parts are laid out; the next one goes to `offset`. */
  ghost predicate LaidOut(list: seq<RemoteShard>, sizes: seq<int>, k: nat, at: seq<nat>, tensors: map<ShardedKey, Staged>,
                          offset: nat, total: nat) {
    && k <= |list| == |sizes|
    && offset == Sum(sizes[..k]) <= total
    && Packed(sizes[..k], at, total) && Dictionary(list[..k], at, tensors)
    && forall j | 0 <= j < k :: at[j] + sizes[j] <= offset
  }

  lemma LayOutStep(list: seq<RemoteShard>, sizes: seq<int>, k: nat, at: seq<nat>, tensors: map<ShardedKey, Staged>,
                   offset: nat, total: nat)
    requires LaidOut(list, sizes, k, at, tensors, offset, total) && k < |list|
    requires NonNegative(sizes) && offset + sizes[k] <= total
    requires forall j | 0 <= j < k :: list[j].adjusted != list[k].adjusted
    ensures list[k].adjusted !in tensors
    ensures LaidOut(list, sizes, k + 1, at + [offset], tensors[list[k].adjusted := Staged(offset, list[k].tensor)],
                    offset + sizes[k], total)
  {
    PackedStep(sizes, k, at, offset, total);
    DictionaryNext(list, k, at, tensors, offset);
  }

  lemma DictionaryNext(list: seq<RemoteShard>, k: nat, at: seq<nat>, tensors: map<ShardedKey, Staged>, offset: nat)
    requires k < |list| && Dictionary(list[..k], at, tensors)
    requires forall j | 0 <= j < k :: list[j].adjusted != list[k].adjusted
    ensures list[k].adjusted !in tensors
    ensures Dictionary(list[..k + 1], at + [offset], tensors[list[k].adjusted := Staged(offset, list[k].tensor)])
  {
    DictionaryStep(list[..k], at, tensors, list[k], offset);
    assert list[..k + 1] == list[..k] + [list[k]];
  }

  /** First loop of ReadTensors: lay the parts out behind each other, or report that the bucket is
      too small; `tensors` is the dictionary filled with emplace. */
  method LayOut(list: seq<RemoteShard>, total: nat)
    returns (fits: bool, at: seq<nat>, tensors: map<ShardedKey, Staged>)
    requires NonNegative(Sizes(list))
    requires forall j, k | 0 <= j < k < |list| :: list[j].adjusted != list[k].adjusted
    ensures fits <==> TotalBytes(list) <= total
    ensures fits ==> Packed(Sizes(list), at, total) && Dictionary(list, at, tensors)
  {
    ghost var sizes := Sizes(list);
    at, tensors := [], map[];
    var offset: nat := 0;
    for k := 0 to |list|
      invariant LaidOut(list, sizes, k, at, tensors, offset, total)
    {
      var size := ByteSize(list[k].tensor);
      assert size == sizes[k] >= 0;
      if offset + size > total {
        TooLarge(sizes, k, total);
        return false, [], map[];
      }
      LayOutStep(list, sizes, k, at, tensors, offset, total);
      at := at + [offset];
      if list[k].adjusted !in tensors {
        tensors := tensors[list[k].adjusted := Staged(offset, list[k].tensor)];
      }
      offset := offset + size;
    }
    assert list[..|list|] == list && sizes[..|list|] == sizes;
    fits := true;
  }

  // ---------- fetching ----------

  /** The buffer at the replica's node holds the shard: element x is G at its global coordinate. */
  ghost predicate ReplicaHolds(r: Replica, remote: Remote, key: ShardedKey, G: seq<int> -> seq<Byte>) {
    && (r.node, r.addr) in remote && |remote[(r.node, r.addr)]| == r.size
    && |r.tensor.size| == |r.tensor.stride| == |key.globalOffset|
    && forall x | InShape(x, r.tensor.size) ::
         var e, w := ElementIndex(r.tensor, x), r.tensor.dtype.itemSize;
         && 0 <= e * w && e * w + w <= r.size
         && remote[(r.node, r.addr)][e * w..e * w + w] == G(Plus(key.globalOffset, x))
  }

  /** The replica that Get reads. */
  function ChosenReplica(replicas: seq<Replica>, rank: nat): (r: Replica)
    requires replicas != []
    ensures r in replicas
  {
    replicas[rank % |replicas|]
  }

  /** The ranks take the replicas in turn. */
  lemma ReplicasInTurn(replicas: seq<Replica>, turn: nat, k: nat)
    requires k < |replicas|
    ensures turn * |replicas| + k >= 0 && ChosenReplica(replicas, turn * |replicas| + k) == replicas[k]
  {
    var n := |replicas|;
    MulMono(0, turn, n);
    var rank := turn * n + k;
    assert rank / n * n + rank % n == rank;
    QuotientUnique(rank / n, rank % n, turn, k, n);
  }

  /** For every shard of tensor `name`, the replica that Get reads holds G; it is laid out as the
      metadata says, possibly at another storage offset. */
  ghost predicate Published(meta: TransferMeta, remote: Remote, name: string, rank: nat, G: seq<int> -> seq<Byte>)
    requires GoodShards(meta, name)
  {
    forall key | key in meta && key.key == name ::
      var known, replica := Last(meta[key]).tensor, ChosenReplica(meta[key], rank);
      && known.storageOffset >= 0 && replica.tensor.storageOffset >= 0
      && replica.tensor == known.(storageOffset := replica.tensor.storageOffset)
      && ReplicaHolds(replica, remote, key, G)
  }

  /** What can be checked before a read: every shard that meets the target is stored at the chosen
      replica where the metadata says, or it starts at offset zero and no rows are cut off. */
  ghost predicate OffsetsAgree(meta: TransferMeta, target: Shard, rank: nat, prune: bool)
    requires GoodShards(meta, target.key.key)
  {
    forall key | key in meta && key.key == target.key.key ::
      var c := Shard(key, Last(meta[key]).tensor);
      Meets(c, target) ==> StartFits(c, target, prune, ChosenReplica(meta[key], rank))
  }

  predicate StartFits(c: Shard, target: Shard, prune: bool, replica: Replica)
    requires Meets(c, target)
  {
    || replica.tensor.storageOffset == c.tensor.storageOffset
    || (c.tensor.storageOffset == 0 && !(prune && CutsRows(c, target)))
  }

  predicate OffsetFits(requested: int, c: Shard, replica: Replica) {
    replica.tensor.storageOffset == c.tensor.storageOffset || requested == 0
  }

  /** Element x of a view on the bucket's bytes. */
  function View(bytes: seq<Byte>, s: Staged, x: seq<int>): seq<Byte>
    requires |s.tensor.stride| == |x|
  {
    var lo := s.at + Dot(s.tensor.stride, x) * s.tensor.dtype.itemSize;
    if 0 <= lo <= lo + s.tensor.dtype.itemSize <= |bytes| then bytes[lo..lo + s.tensor.dtype.itemSize] else []
  }

  /** The staged part holds G at its place. */
  ghost predicate StagedHolds(bytes: seq<Byte>, s: Staged, offset: seq<int>, G: seq<int> -> seq<Byte>) {
    && |s.tensor.size| == |s.tensor.stride| == |offset|
    && forall x | InShape(x, s.tensor.size) :: View(bytes, s, x) == G(Plus(offset, x))
  }

  datatype GetResult = Received | InfoNotFound | ExceedsRemote | ReceiveFailed

  /** Where Get reads in the chosen replica's buffer. */
  function RemoteOffset(t: TensorMeta, r: Replica): int {
    ChosenOffset(t.storageOffset, r.tensor.storageOffset) * t.dtype.itemSize
  }

  /** The replica's buffer is there, and the read would not start in front of it. */
  predicate Readable(remote: Remote, t: TensorMeta, r: Replica) {
    (r.node, r.addr) in remote && |remote[(r.node, r.addr)]| == r.size && 0 <= RemoteOffset(t, r)
  }

  /** TensorTransferPull::Get after the waits: choose the replica, check the size, read the bytes.
      `up` is the outcome the transport reports. */
  method Get(meta: TransferMeta, remote: Remote, rank: nat, key: ShardedKey, t: TensorMeta,
             bucket: array<Byte>, at: nat, up: bool) returns (r: GetResult)
    requires 0 <= ByteSize(t) && at + ByteSize(t) <= bucket.Length
    requires key in meta && meta[key] != [] ==> Readable(remote, t, ChosenReplica(meta[key], rank))
    modifies bucket
    ensures bucket[..at] == old(bucket[..at])
    ensures bucket[at + ByteSize(t)..] == old(bucket[at + ByteSize(t)..])
    ensures r.InfoNotFound? <==> key !in meta || meta[key] == []
    ensures r.ExceedsRemote? <==>
      && key in meta && meta[key] != []
      && var replica := ChosenReplica(meta[key], rank);
      RemoteOffset(t, replica) + ByteSize(t) > replica.size
    ensures r.ReceiveFailed? ==> !up
    ensures r.Received? ==>
      var replica := ChosenReplica(meta[key], rank);
      && up && RemoteOffset(t, replica) + ByteSize(t) <= replica.size
      && bucket[at..at + ByteSize(t)]
         == remote[(replica.node, replica.addr)][RemoteOffset(t, replica)..RemoteOffset(t, replica) + ByteSize(t)]
    ensures !r.Received? ==> bucket[..] == old(bucket[..])
  {
    if key !in meta || meta[key] == [] {
      return InfoNotFound;
    }
    var replicas := meta[key];
    var replica := replicas[rank % |replicas|];
    var remoteOffset := replica.tensor.storageOffset * t.dtype.itemSize;
    if t.storageOffset != replica.tensor.storageOffset && t.storageOffset != 0 {
      remoteOffset := t.storageOffset * t.dtype.itemSize;
    }
    var byteSize := ByteSize(t);
    if remoteOffset + byteSize > replica.size {
      return ExceedsRemote;
    }
    if !up {
      return ReceiveFailed;
    }
    var source := remote[(replica.node, replica.addr)];
    forall i | 0 <= i < byteSize {
      bucket[at + i] := source[remoteOffset + i];
    }
    return Received;
  }

  /** Bytes that were received from a buffer show, through the staged view, the buffer's elements. */
  lemma ReceivedView(bytes: seq<Byte>, s: Staged, buffer: seq<Byte>, from: int, x: seq<int>)
    requires RowMajor(s.tensor) && InShape(x, s.tensor.size)
    requires 0 <= ByteSize(s.tensor) && s.at + ByteSize(s.tensor) <= |bytes|
    requires 0 <= from * s.tensor.dtype.itemSize && from * s.tensor.dtype.itemSize + ByteSize(s.tensor) <= |buffer|
    requires bytes[s.at..s.at + ByteSize(s.tensor)]
          == buffer[from * s.tensor.dtype.itemSize..from * s.tensor.dtype.itemSize + ByteSize(s.tensor)]
    ensures var e, w := from + Dot(s.tensor.stride, x), s.tensor.dtype.itemSize;
            0 <= e * w && e * w + w <= |buffer| && View(bytes, s, x) == buffer[e * w..e * w + w]
  {
    var w, d, n := s.tensor.dtype.itemSize, Dot(s.tensor.stride, x), Product(s.tensor.size);
    RowMajorDot(s.tensor.size, s.tensor.stride, x);
    FlatBounds(x, s.tensor.size);
    ElementBytes(d, n, w, from);
    SameSlice(bytes, s.at, buffer, from * w, n * w, d * w, w);
  }

  /** The bytes of element d lie among those of n elements. */
  lemma ElementBytes(d: int, n: int, w: nat, from: int)
    requires 0 <= d < n
    ensures 0 <= d * w && d * w + w <= n * w && (from + d) * w == from * w + d * w
  {
    MulMono(0, d, w);
    MulMono(d + 1, n, w);
    assert (d + 1) * w == d * w + w;
  }

  lemma SameSlice(a: seq<Byte>, i: int, b: seq<Byte>, j: int, len: int, lo: int, w: int)
    requires 0 <= i && i + len <= |a| && 0 <= j && j + len <= |b| && 0 <= lo && 0 <= w && lo + w <= len
    requires a[i..i + len] == b[j..j + len]
    ensures a[i + lo..i + lo + w] == b[j + lo..j + lo + w]
  {
    var x, y := a[i + lo..i + lo + w], b[j + lo..j + lo + w];
    forall k | 0 <= k < w
      ensures x[k] == y[k]
    {
      assert a[i..i + len][lo + k] == b[j..j + len][lo + k];
    }
  }

  /** Position `n` of a fetched part, as an element of the shard. */
  lemma PartElement(r: RemoteShard, c: Shard, target: Shard, n: int) returns (y: seq<int>)
    requires FetchedFrom(r, c, target) && 0 <= n < Product(r.tensor.size)
    ensures InShape(y, c.tensor.size)
    ensures ElementIndex(c.tensor, y) == r.tensor.storageOffset + n
  {
    var x := Unravel(n, r.tensor.size);
    UnravelFlat(n, r.tensor.size);
    RowMajorDot(r.tensor.size, r.tensor.stride, x);
    y := Minus(Plus(r.adjusted.globalOffset, x), c.key.globalOffset);
    assert ElementIndex(r.tensor, x) == r.tensor.storageOffset + n;
  }

  /** Pruning never moves a shard's start down. */
  lemma PartOffset(r: RemoteShard, c: Shard, target: Shard)
    requires FetchedFrom(r, c, target)
    ensures Product(r.tensor.size) > 0
    ensures r.tensor.storageOffset >= c.tensor.storageOffset
  {
    ProductNonNegative(r.tensor.size);
    var y := PartElement(r, c, target, 0);
    forall i | 0 <= i < |r.tensor.size|
      ensures r.tensor.stride[i] >= 0
    {
      ProductNonNegative(r.tensor.size[i + 1..]);
    }
    DotNonNegative(c.tensor.stride, y);
  }

  lemma {:induction false} DotNonNegative(stride: seq<int>, x: seq<int>)
    requires |stride| == |x| && NonNegative(stride) && NonNegative(x)
    ensures Dot(stride, x) >= 0
  {
    if x != [] {
      DotNonNegative(stride[1..], x[1..]);
      MulMono(0, stride[0], x[0]);
    }
  }

  lemma {:induction false} DotPositive(stride: seq<int>, x: seq<int>)
    requires |stride| == |x| && Positive(stride) && NonNegative(x)
    ensures Dot(stride, x) == 0 <==> forall i | 0 <= i < |x| :: x[i] == 0
  {
    if x != [] {
      DotPositive(stride[1..], x[1..]);
      DotNonNegative(stride[1..], x[1..]);
      MulMono(1, stride[0], x[0]);
      assert x == [x[0]] + x[1..];
    }
  }

  /** A part is requested from offset zero exactly when its shard is stored there and nothing in front
      of the part was cut off. */
  lemma ZeroRequest(r: RemoteShard, c: Shard, target: Shard)
    requires FetchedFrom(r, c, target) && c.tensor.storageOffset >= 0
    ensures r.tensor.storageOffset == 0 <==> c.tensor.storageOffset == 0 && r.adjusted.globalOffset == c.key.globalOffset
  {
    var zero := seq(|r.tensor.size|, i => 0);
    assert InShape(zero, r.tensor.size);
    assert SameElement(c, r.tensor, r.adjusted.globalOffset, zero);
    var y := Minus(Plus(r.adjusted.globalOffset, zero), c.key.globalOffset);
    DotZero(r.tensor.stride, zero);
    forall i | 0 <= i < |r.tensor.size|
      ensures r.tensor.stride[i] > 0
    {
      ProductNonNegative(r.tensor.size[i + 1..]);
    }
    DotPositive(c.tensor.stride, y);
    DotNonNegative(c.tensor.stride, y);
    assert (forall i | 0 <= i < |y| :: y[i] == 0) <==> r.adjusted.globalOffset == c.key.globalOffset by {
      assert forall i | 0 <= i < |y| :: y[i] == r.adjusted.globalOffset[i] - c.key.globalOffset[i];
    }
  }

  /** The condition on the metadata is the one on the part that is fetched. */
  lemma StartExact(r: RemoteShard, c: Shard, target: Shard, prune: bool, replica: Replica)
    requires MadeFrom(r, c, target, prune) && c.tensor.storageOffset >= 0
    ensures OffsetFits(r.tensor.storageOffset, c, replica) <==> StartFits(c, target, prune, replica)
  {
    StartsUnlessCut(c, target, prune);
    ZeroRequest(r, c, target);
  }

  /** A replica of the shard that is laid out like it, at its own storage offset. */
  predicate LaidOutLike(replica: Replica, c: Shard) {
    && c.tensor.storageOffset >= 0 && replica.tensor.storageOffset >= 0
    && replica.tensor == c.tensor.(storageOffset := replica.tensor.storageOffset)
  }

  /** Where the replica keeps the first element of a part. */
  function PartPlace(r: RemoteShard, c: Shard, replica: Replica): int {
    replica.tensor.storageOffset + (r.tensor.storageOffset - c.tensor.storageOffset)
  }

  lemma SameMultiple(a: int, b: int, w: nat)
    requires w > 0
    ensures a * w == b * w <==> a == b
  {
    if a < b {
      MulMono(a + 1, b, w);
      assert (a + 1) * w == a * w + w;
    } else if b < a {
      MulMono(b + 1, a, w);
      assert (b + 1) * w == b * w + w;
    }
  }

  /** Get reads a fetched part where the replica keeps it if and only if the replica is stored where
      the metadata says, or offset zero is requested. */
  lemma RemoteOffsetExact(r: RemoteShard, c: Shard, target: Shard, replica: Replica)
    requires FetchedFrom(r, c, target) && LaidOutLike(replica, c) && c.tensor.dtype.itemSize > 0
    ensures RemoteOffset(r.tensor, replica) == PartPlace(r, c, replica) * r.tensor.dtype.itemSize
            <==> OffsetFits(r.tensor.storageOffset, c, replica)
  {
    PartOffset(r, c, target);
    var shift := r.tensor.storageOffset - c.tensor.storageOffset;
    ChosenOffsetExact(c.tensor.storageOffset, shift, replica.tensor.storageOffset);
    SameMultiple(ChosenOffset(r.tensor.storageOffset, replica.tensor.storageOffset), PartPlace(r, c, replica),
                 r.tensor.dtype.itemSize);
  }

  /** Element x of the part, in the replica's buffer. */
  lemma PartInReplica(r: RemoteShard, c: Shard, target: Shard, replica: Replica, x: seq<int>)
    requires FetchedFrom(r, c, target) && LaidOutLike(replica, c) && InShape(x, r.tensor.size)
    ensures var y := Minus(Plus(r.adjusted.globalOffset, x), c.key.globalOffset);
            && InShape(y, replica.tensor.size)
            && ElementIndex(replica.tensor, y) == PartPlace(r, c, replica) + Dot(r.tensor.stride, x)
            && Plus(c.key.globalOffset, y) == Plus(r.adjusted.globalOffset, x)
  {
    assert SameElement(c, r.tensor, r.adjusted.globalOffset, x);
  }

  lemma BytesOfRange(s: int, n: int, w: nat, size: int)
    requires 0 <= s && 0 < n && (s + (n - 1)) * w + w <= size
    ensures 0 <= n * w && 0 <= s * w && s * w + n * w <= size
  {
    MulMono(0, n, w);
    MulMono(0, s, w);
    assert (s + (n - 1)) * w + w == s * w + n * w;
  }

  /** The last element of a part lies inside the replica's buffer. */
  lemma LastFits(r: RemoteShard, c: Shard, target: Shard, replica: Replica, remote: Remote, G: seq<int> -> seq<Byte>)
    requires FetchedFrom(r, c, target) && LaidOutLike(replica, c) && ReplicaHolds(replica, remote, c.key, G)
    ensures Product(r.tensor.size) > 0
    ensures (PartPlace(r, c, replica) + (Product(r.tensor.size) - 1)) * r.tensor.dtype.itemSize + r.tensor.dtype.itemSize
            <= replica.size
  {
    PartOffset(r, c, target);
    var n := Product(r.tensor.size);
    var x := Unravel(n - 1, r.tensor.size);
    UnravelFlat(n - 1, r.tensor.size);
    RowMajorDot(r.tensor.size, r.tensor.stride, x);
    PartInReplica(r, c, target, replica, x);
    var y := Minus(Plus(r.adjusted.globalOffset, x), c.key.globalOffset);
    assert ElementIndex(replica.tensor, y) == PartPlace(r, c, replica) + (n - 1);
  }

  /** A fetched part lies inside its replica's buffer, at the offset Get chooses. */
  lemma FetchFits(r: RemoteShard, c: Shard, target: Shard, replica: Replica, remote: Remote, G: seq<int> -> seq<Byte>)
    requires FetchedFrom(r, c, target) && LaidOutLike(replica, c) && OffsetFits(r.tensor.storageOffset, c, replica)
    requires ReplicaHolds(replica, remote, c.key, G)
    ensures ByteSize(r.tensor) >= 0
    ensures RemoteOffset(r.tensor, replica) == PartPlace(r, c, replica) * r.tensor.dtype.itemSize >= 0
    ensures RemoteOffset(r.tensor, replica) + ByteSize(r.tensor) <= replica.size
  {
    PartOffset(r, c, target);
    LastFits(r, c, target, replica, remote, G);
    BytesOfRange(PartPlace(r, c, replica), Product(r.tensor.size), r.tensor.dtype.itemSize, replica.size);
    ChosenOffsetExact(c.tensor.storageOffset, r.tensor.storageOffset - c.tensor.storageOffset, replica.tensor.storageOffset);
    assert ChosenOffset(r.tensor.storageOffset, replica.tensor.storageOffset) == PartPlace(r, c, replica);
  }

  /** The candidates are the metadata's shards of one tensor. */
  ghost predicate Sourced(candidates: seq<Shard>, meta: TransferMeta, name: string)
    requires GoodShards(meta, name)
  {
    forall k | 0 <= k < |candidates| ::
      && candidates[k].key in meta && candidates[k].key.key == name
      && candidates[k].tensor == Last(meta[candidates[k].key]).tensor
  }

  lemma StagedFrame(before: seq<Byte>, after: seq<Byte>, s: Staged, offset: seq<int>, G: seq<int> -> seq<Byte>)
    requires RowMajor(s.tensor) && 0 <= ByteSize(s.tensor)
    requires |before| == |after| && s.at + ByteSize(s.tensor) <= |before|
    requires before[s.at..s.at + ByteSize(s.tensor)] == after[s.at..s.at + ByteSize(s.tensor)]
    requires StagedHolds(before, s, offset, G)
    ensures StagedHolds(after, s, offset, G)
  {
    var bytes := before[s.at..s.at + ByteSize(s.tensor)];
    assert bytes == bytes[0..ByteSize(s.tensor)];
    forall x | InShape(x, s.tensor.size)
      ensures View(after, s, x) == G(Plus(offset, x))
    {
      ReceivedView(before, s, bytes, 0, x);
      ReceivedView(after, s, bytes, 0, x);
    }
  }

  /** One Get of the second loop of ReadTensors: it succeeds if the transport does, and the staged part
      then holds G. */
  method FetchOne(meta: TransferMeta, remote: Remote, rank: nat, r: RemoteShard, at: nat, bucket: array<Byte>, up: bool,
                  ghost c: Shard, ghost target: Shard, ghost G: seq<int> -> seq<Byte>) returns (ok: bool)
    requires c.key in meta && meta[c.key] != [] && FetchedFrom(r, c, target)
    requires LaidOutLike(ChosenReplica(meta[c.key], rank), c)
    requires OffsetFits(r.tensor.storageOffset, c, ChosenReplica(meta[c.key], rank))
    requires ReplicaHolds(ChosenReplica(meta[c.key], rank), remote, c.key, G)
    requires 0 <= ByteSize(r.tensor) && at + ByteSize(r.tensor) <= bucket.Length
    modifies bucket
    ensures ok <==> up
    ensures bucket[..at] == old(bucket[..at])
    ensures ok ==> StagedHolds(bucket[..], Staged(at, r.tensor), r.adjusted.globalOffset, G)
  {
    ghost var replica := ChosenReplica(meta[c.key], rank);
    FetchFits(r, c, target, replica, remote, G);
    var got := Get(meta, remote, rank, r.raw, r.tensor, bucket, at, up);
    ok := got.Received?;
    if ok {
      assert bucket[..][at..at + ByteSize(r.tensor)] == bucket[at..at + ByteSize(r.tensor)];
      ReceivedHolds(bucket[..], at, r, c, target, replica, remote, G);
    }
  }

  /** `bytes` has the part's bytes at `at`, as Get received them from the replica's buffer. */
  ghost predicate ReceivedAt(bytes: seq<Byte>, at: nat, t: TensorMeta, replica: Replica, remote: Remote) {
    && Readable(remote, t, replica)
    && 0 <= ByteSize(t) && at + ByteSize(t) <= |bytes| && RemoteOffset(t, replica) + ByteSize(t) <= replica.size
    && bytes[at..at + ByteSize(t)]
       == remote[(replica.node, replica.addr)][RemoteOffset(t, replica)..RemoteOffset(t, replica) + ByteSize(t)]
  }

  lemma ReceivedHolds(bytes: seq<Byte>, at: nat, r: RemoteShard, c: Shard, target: Shard, replica: Replica,
                      remote: Remote, G: seq<int> -> seq<Byte>)
    requires FetchedFrom(r, c, target) && LaidOutLike(replica, c) && OffsetFits(r.tensor.storageOffset, c, replica)
    requires ReplicaHolds(replica, remote, c.key, G) && ReceivedAt(bytes, at, r.tensor, replica, remote)
    ensures StagedHolds(bytes, Staged(at, r.tensor), r.adjusted.globalOffset, G)
  {
    FetchFits(r, c, target, replica, remote, G);
    var buffer := remote[(replica.node, replica.addr)];
    forall x | InShape(x, r.tensor.size)
      ensures View(bytes, Staged(at, r.tensor), x) == G(Plus(r.adjusted.globalOffset, x))
    {
      ReceivedView(bytes, Staged(at, r.tensor), buffer, PartPlace(r, c, replica), x);
      PartInReplica(r, c, target, replica, x);
    }
  }

  /** What the metadata promises about one entry of the fetch list. */
  lemma EntryFits(meta: TransferMeta, remote: Remote, rank: nat, r: RemoteShard, c: Shard, target: Shard, prune: bool,
                  G: seq<int> -> seq<Byte>)
    requires GoodShards(meta, target.key.key) && Published(meta, remote, target.key.key, rank, G)
    requires OffsetsAgree(meta, target, rank, prune)
    requires c.key in meta && c.key.key == target.key.key && c.tensor == Last(meta[c.key]).tensor
    requires MadeFrom(r, c, target, prune)
    ensures LaidOutLike(ChosenReplica(meta[c.key], rank), c)
    ensures OffsetFits(r.tensor.storageOffset, c, ChosenReplica(meta[c.key], rank))
    ensures ReplicaHolds(ChosenReplica(meta[c.key], rank), remote, c.key, G)
  {
    assert c == Shard(c.key, Last(meta[c.key]).tensor);
    StartExact(r, c, target, prune, ChosenReplica(meta[c.key], rank));
  }

  method FetchEntry(meta: TransferMeta, remote: Remote, rank: nat, r: RemoteShard, at: nat, bucket: array<Byte>, up: bool,
                    ghost candidates: seq<Shard>, ghost target: Shard, ghost prune: bool, ghost G: seq<int> -> seq<Byte>)
    returns (ok: bool)
    requires GoodShards(meta, target.key.key) && Published(meta, remote, target.key.key, rank, G)
    requires OffsetsAgree(meta, target, rank, prune)
    requires Sourced(candidates, meta, target.key.key) && FromSome(r, candidates, target, prune)
    requires 0 <= ByteSize(r.tensor) && at + ByteSize(r.tensor) <= bucket.Length
    modifies bucket
    ensures ok <==> up
    ensures bucket[..at] == old(bucket[..at])
    ensures ok ==> StagedHolds(bucket[..], Staged(at, r.tensor), r.adjusted.globalOffset, G)
  {
    ghost var i :| 0 <= i < |candidates| && MadeFrom(r, candidates[i], target, prune);
    EntryFits(meta, remote, rank, r, candidates[i], target, prune, G);
    ok := FetchOne(meta, remote, rank, r, at, bucket, up, candidates[i], target, G);
  }

  /** Second loop of ReadTensors; `up(k)` is what the transport reports for the k-th part. */
  method FetchAll(meta: TransferMeta, remote: Remote, rank: nat, list: seq<RemoteShard>, at: seq<nat>, bucket: array<Byte>,
                  up: nat -> bool, ghost candidates: seq<Shard>, ghost target: Shard, ghost prune: bool,
                  ghost G: seq<int> -> seq<Byte>) returns (ok: bool)
    requires GoodShards(meta, target.key.key) && Published(meta, remote, target.key.key, rank, G)
    requires OffsetsAgree(meta, target, rank, prune)
    requires Sourced(candidates, meta, target.key.key) && FetchList(list, candidates, target, prune)
    requires Packed(Sizes(list), at, bucket.Length)
    modifies bucket
    ensures ok <==> forall k | 0 <= k < |list| :: up(k)
    ensures ok ==> forall k | 0 <= k < |list| ::
      StagedHolds(bucket[..], Staged(at[k], list[k].tensor), list[k].adjusted.globalOffset, G)
  {
    for k := 0 to |list|
      invariant forall j | 0 <= j < k :: up(j)
      invariant forall j | 0 <= j < k ::
        StagedHolds(bucket[..], Staged(at[j], list[j].tensor), list[j].adjusted.globalOffset, G)
    {
      ghost var before := bucket[..];
      assert FromSome(list[k], candidates, target, prune) && Sizes(list)[k] == ByteSize(list[k].tensor);
      var received := FetchEntry(meta, remote, rank, list[k], at[k], bucket, up(k), candidates, target, prune, G);
      if !received {
        return false;
      }
      KeepsAllEarlier(before, bucket[..], list, at, bucket.Length, k, candidates, target, prune, G);
    }
    return true;
  }

  lemma KeepsAllEarlier(before: seq<Byte>, after: seq<Byte>, list: seq<RemoteShard>, at: seq<nat>, total: nat, k: nat,
                        candidates: seq<Shard>, target: Shard, prune: bool, G: seq<int> -> seq<Byte>)
    requires Packed(Sizes(list), at, total) && k < |list|
    requires forall j | 0 <= j < k :: FromSome(list[j], candidates, target, prune)
    requires |before| == |after| == total && before[..at[k]] == after[..at[k]]
    requires forall j | 0 <= j < k :: StagedHolds(before, Staged(at[j], list[j].tensor), list[j].adjusted.globalOffset, G)
    ensures forall j | 0 <= j < k :: StagedHolds(after, Staged(at[j], list[j].tensor), list[j].adjusted.globalOffset, G)
  {
    forall j | 0 <= j < k
      ensures StagedHolds(after, Staged(at[j], list[j].tensor), list[j].adjusted.globalOffset, G)
    {
      KeepsEarlier(before, after, list, at, total, j, k, candidates, target, prune, G);
    }
  }

  lemma SliceInside(s: seq<Byte>, lo: nat, hi: nat, n: nat)
    requires lo <= hi <= n <= |s|
    ensures s[lo..hi] == s[..n][lo..hi]
  {
  }

  lemma KeepsEarlier(before: seq<Byte>, after: seq<Byte>, list: seq<RemoteShard>, at: seq<nat>, total: nat, j: nat, k: nat,
                     candidates: seq<Shard>, target: Shard, prune: bool, G: seq<int> -> seq<Byte>)
    requires Packed(Sizes(list), at, total) && j < k < |list| && FromSome(list[j], candidates, target, prune)
    requires |before| == |after| == total && before[..at[k]] == after[..at[k]]
    requires StagedHolds(before, Staged(at[j], list[j].tensor), list[j].adjusted.globalOffset, G)
    ensures StagedHolds(after, Staged(at[j], list[j].tensor), list[j].adjusted.globalOffset, G)
  {
    var lo, hi := at[j], at[j] + Sizes(list)[j];
    SliceInside(before, lo, hi, at[k]);
    SliceInside(after, lo, hi, at[k]);
    StagedFrame(before, after, Staged(at[j], list[j].tensor), list[j].adjusted.globalOffset, G);
  }

  // ---------- copying into the target ----------

  /** Element t of the target and its counterpart in the source, through the two narrowed views. */
  lemma NarrowedElement(source: Box, goal: Box, src: seq<int>, dst: seq<int>, t: seq<int>)
    requires |source.offset| == |source.size| == |goal.offset| == |goal.size| == |src| == |dst|
    requires Intersect(source, goal).offset == Plus(source.offset, src) == Plus(goal.offset, dst)
    requires InShape(t, goal.size)
    ensures Contains(Box(dst, Intersect(source, goal).size), t) <==> Contains(source, Plus(goal.offset, t))
    ensures Plus(src, Minus(t, dst)) == Minus(Plus(goal.offset, t), source.offset)
  {
    CutExact(source, goal, dst, t);
    forall i | 0 <= i < |t|
      ensures src[i] + (t[i] - dst[i]) == goal.offset[i] + t[i] - source.offset[i]
    {
      assert Plus(source.offset, src)[i] == Plus(goal.offset, dst)[i];
    }
  }

  /** The target tensor, by its own coordinates. */
  class TargetTensor {
    const size: seq<int>
    var elements: map<seq<int>, seq<Byte>>

    ghost predicate Valid()
      reads this
    {
      forall t :: t in elements <==> InShape(t, size)
    }

    /** CopyTensorWithShardedKeysUnsafe: narrow source and target to the common part and copy it. */
    method CopyFrom(srcOffset: seq<int>, s: Staged, bytes: seq<Byte>, targetOffset: seq<int>) returns (copied: bool)
      requires Valid()
      requires |srcOffset| == |s.tensor.size| == |s.tensor.stride| == |targetOffset| == |size|
      modifies this
      ensures Valid()
      ensures copied <==> !Disjoint(Box(srcOffset, s.tensor.size), Box(targetOffset, size))
      ensures forall t | InShape(t, size) ::
        elements[t] ==
        if Contains(Box(srcOffset, s.tensor.size), Plus(targetOffset, t))
        then View(bytes, s, Minus(Plus(targetOffset, t), srcOffset))
        else old(elements)[t]
    {
      var source, goal := Box(srcOffset, s.tensor.size), Box(targetOffset, size);
      var found, src, dst, shape := Overlap(source, goal);
      if !found {
        forall t | InShape(t, size)
          ensures !Contains(source, Plus(targetOffset, t))
        {
          assert Contains(goal, Plus(targetOffset, t));
        }
        return false;
      }
      forall t | InShape(t, size)
        ensures Contains(Box(dst, shape), t) <==> Contains(source, Plus(targetOffset, t))
        ensures Plus(src, Minus(t, dst)) == Minus(Plus(targetOffset, t), srcOffset)
      {
        NarrowedElement(source, goal, src, dst, t);
      }
      elements := map t | t in elements ::
        if Contains(Box(dst, shape), t) then View(bytes, s, Plus(src, Minus(t, dst))) else elements[t];
      assert Contains(Intersect(source, goal), Intersect(source, goal).offset);
      return true;
    }
  }

  /** Coordinate g lies in one of these parts. */
  ghost predicate HeldBy(tensors: map<ShardedKey, Staged>, done: set<ShardedKey>, g: seq<int>) {
    exists key :: key in done && key in tensors && Contains(Box(key.globalOffset, tensors[key].tensor.size), g)
  }

  /** Once the `done` parts are copied, every element that one of them holds is G's, and the others are
      what they were. */
  ghost predicate CopiedParts(was: map<seq<int>, seq<Byte>>, now: map<seq<int>, seq<Byte>>, size: seq<int>, offset: seq<int>,
                              tensors: map<ShardedKey, Staged>, done: set<ShardedKey>, G: seq<int> -> seq<Byte>)
    requires |offset| == |size|
  {
    forall t | InShape(t, size) ::
      && t in was && t in now
      && now[t] == if HeldBy(tensors, done, Plus(offset, t)) then G(Plus(offset, t)) else was[t]
  }

  /** The copy loop of SubmitTransferTask, over the tensor dictionary in any order. */
  method CopyAll(tensors: map<ShardedKey, Staged>, bytes: seq<Byte>, offset: seq<int>, target: TargetTensor,
                 ghost G: seq<int> -> seq<Byte>)
    requires target.Valid() && |offset| == |target.size|
    requires forall key | key in tensors ::
      && |key.globalOffset| == |target.size|
      && StagedHolds(bytes, tensors[key], key.globalOffset, G)
    modifies target
    ensures target.Valid()
    ensures CopiedParts(old(target.elements), target.elements, target.size, offset, tensors, tensors.Keys, G)
  {
    var rest := tensors.Keys;
    ghost var first := target.elements;
    while rest != {}
      invariant rest <= tensors.Keys && target.Valid()
      invariant CopiedParts(first, target.elements, target.size, offset, tensors, tensors.Keys - rest, G)
      decreases rest
    {
      var key :| key in rest;
      ghost var was := target.elements;
      var copied := target.CopyFrom(key.globalOffset, tensors[key], bytes, offset);
      CopiedOne(first, was, target.elements, target.size, offset, tensors, tensors.Keys - rest, key, bytes, G);
      assert tensors.Keys - rest + {key} == tensors.Keys - (rest - {key});
      rest := rest - {key};
    }
    assert tensors.Keys - {} == tensors.Keys;
  }

  lemma CopiedOne(first: map<seq<int>, seq<Byte>>, was: map<seq<int>, seq<Byte>>, now: map<seq<int>, seq<Byte>>,
                  size: seq<int>, offset: seq<int>, tensors: map<ShardedKey, Staged>, done: set<ShardedKey>, key: ShardedKey,
                  bytes: seq<Byte>, G: seq<int> -> seq<Byte>)
    requires |offset| == |size| == |key.globalOffset| && key in tensors
    requires StagedHolds(bytes, tensors[key], key.globalOffset, G)
    requires CopiedParts(first, was, size, offset, tensors, done, G)
    requires forall t | InShape(t, size) ::
      && t in was && t in now
      && now[t] == if Contains(Box(key.globalOffset, tensors[key].tensor.size), Plus(offset, t))
                   then View(bytes, tensors[key], Minus(Plus(offset, t), key.globalOffset)) else was[t]
    ensures CopiedParts(first, now, size, offset, tensors, done + {key}, G)
  {
    var part := Box(key.globalOffset, tensors[key].tensor.size);
    forall t | InShape(t, size)
      ensures now[t] == if HeldBy(tensors, done + {key}, Plus(offset, t)) then G(Plus(offset, t)) else first[t]
    {
      var c := Plus(offset, t);
      OneMore(tensors, done, key, c);
      if Contains(part, c) {
        StagedElement(bytes, tensors[key], key.globalOffset, c, G);
      }
    }
  }

  lemma OneMore(tensors: map<ShardedKey, Staged>, done: set<ShardedKey>, key: ShardedKey, g: seq<int>)
    requires key in tensors
    ensures HeldBy(tensors, done + {key}, g) <==>
            HeldBy(tensors, done, g) || Contains(Box(key.globalOffset, tensors[key].tensor.size), g)
  {
    if Contains(Box(key.globalOffset, tensors[key].tensor.size), g) {
      assert key in done + {key};
    }
  }

  /** What a staged part shows for a coordinate it holds. */
  lemma StagedElement(bytes: seq<Byte>, s: Staged, offset: seq<int>, g: seq<int>, G: seq<int> -> seq<Byte>)
    requires StagedHolds(bytes, s, offset, G) && Contains(Box(offset, s.tensor.size), g)
    ensures View(bytes, s, Minus(g, offset)) == G(g)
  {
    var x, part := Minus(g, offset), Box(offset, s.tensor.size);
    forall i | 0 <= i < |x|
      ensures 0 <= x[i] < s.tensor.size[i]
    {
      assert part.offset[i] <= g[i] < part.offset[i] + part.size[i];
    }
    assert Plus(offset, x) == g;
  }

  datatype ReadOutcome = Done | Rejected(verdict: Verdict) | BucketTooSmall | FetchFailed

  /** What is in the target after a read with this list. */
  ghost predicate ReadInto(was: map<seq<int>, seq<Byte>>, now: map<seq<int>, seq<Byte>>, size: seq<int>, offset: seq<int>,
                           list: seq<RemoteShard>, G: seq<int> -> seq<Byte>)
    requires |offset| == |size|
  {
    forall t | InShape(t, size) ::
      && t in was && t in now
      && now[t] == if InParts(list, Plus(offset, t)) then G(Plus(offset, t)) else was[t]
  }

  /** ReadTensors behind the choice of shards, and the copy loop of SubmitTransferTask. The list was made
      for the target `asked`, which need not be the one that is read into: elements that no part holds
      stay what they are. `up(k)` is what the transport reports for the k-th part. */
  method ReadList(meta: TransferMeta, remote: Remote, rank: nat, list: seq<RemoteShard>, offset: seq<int>, target: TargetTensor,
                  bucket: array<Byte>, up: nat -> bool, ghost asked: Shard, ghost prune: bool, ghost candidates: seq<Shard>,
                  ghost G: seq<int> -> seq<Byte>)
    returns (r: ReadOutcome)
    requires target.Valid() && |offset| == |target.size| == |asked.tensor.size|
    requires GoodShards(meta, asked.key.key) && DisjointShards(meta, asked.key.key)
    requires Published(meta, remote, asked.key.key, rank, G) && OffsetsAgree(meta, asked, rank, prune)
    requires Sourced(candidates, meta, asked.key.key) && FetchList(list, candidates, asked, prune)
    modifies target, bucket
    ensures target.Valid() && !r.Rejected?
    ensures r.BucketTooSmall? <==> TotalBytes(list) > bucket.Length
    ensures r.FetchFailed? <==> TotalBytes(list) <= bucket.Length && exists k | 0 <= k < |list| :: !up(k)
    ensures !r.Done? ==> target.elements == old(target.elements)
    ensures r.Done? ==> ReadInto(old(target.elements), target.elements, target.size, offset, list, G)
  {
    PlanFits(meta, list, candidates, asked, prune);
    var fits, at, tensors := LayOut(list, bucket.Length);
    if !fits {
      return BucketTooSmall;
    }
    var ok := FetchAll(meta, remote, rank, list, at, bucket, up, candidates, asked, prune, G);
    if !ok {
      return FetchFailed;
    }
    DictionaryHolds(tensors, list, at, bucket[..], asked, G);
    CopyAll(tensors, bucket[..], offset, target, G);
    forall g
      ensures HeldBy(tensors, tensors.Keys, g) <==> InParts(list, g)
    {
      SameParts(tensors, list, at, g);
    }
    return Done;
  }

  /** The choice of what to read, with its meaning for the request. */
  method PlanRead(meta: TransferMeta, target: Shard) returns (v: Verdict, list: seq<RemoteShard>, candidates: seq<Shard>)
    requires GoodShards(meta, target.key.key) && DisjointShards(meta, target.key.key)
    requires |target.key.globalOffset| == |target.key.globalShape|
    requires NonNegative(target.key.globalOffset) && NonNegative(target.tensor.size)
    ensures !v.Valid? ==> !CoveredRequest(meta, target)
    ensures v.Valid? ==>
      && Shaped(target) && (Positive(target.tensor.size) ==> CoveredRequest(meta, target))
      && Sourced(candidates, meta, target.key.key) && FetchList(list, candidates, target, true)
      && (AllInRows(meta, target) ==> TotalBytes(list) == Product(target.tensor.size) * target.tensor.dtype.itemSize)
  {
    v, list, candidates := GetRemoteTensorShards(meta, target, true);
    if v.Valid? {
      ServedIsCovered(meta, target, candidates);
      if AllInRows(meta, target) {
        NothingExtra(meta, list, candidates, target);
      }
    } else if CoveredRequest(meta, target) {
      RequestCandidates(meta, target, candidates);
    }
  }

  /** The read of one target tensor: ReadTensors followed by the copy loop of SubmitTransferTask.
      `G` is the global tensor the senders published. A read that does not fail leaves every target
      element equal to G at the target's offset plus the element's coordinate. */
  method ReadTarget(meta: TransferMeta, remote: Remote, rank: nat, key: ShardedKey, tensor: TensorMeta,
                    target: TargetTensor, bucket: array<Byte>, up: nat -> bool, ghost G: seq<int> -> seq<Byte>)
    returns (r: ReadOutcome, ghost list: seq<RemoteShard>)
    requires target.Valid() && tensor.size == target.size && NonNegative(target.size)
    requires |key.globalOffset| == |key.globalShape| && NonNegative(key.globalOffset)
    requires GoodShards(meta, key.key) && DisjointShards(meta, key.key) && Published(meta, remote, key.key, rank, G)
    requires OffsetsAgree(meta, Shard(key, tensor), rank, true)
    modifies target, bucket
    ensures target.Valid()
    ensures !r.Rejected? && AllInRows(meta, Shard(key, tensor)) ==>
      TotalBytes(list) == Product(target.size) * tensor.dtype.itemSize
    ensures r.Rejected? ==> !CoveredRequest(meta, Shard(key, tensor))
    ensures !r.Rejected? && Positive(target.size) ==> CoveredRequest(meta, Shard(key, tensor))
    ensures !r.Rejected? ==> exists candidates ::
      Sourced(candidates, meta, key.key) && FetchList(list, candidates, Shard(key, tensor), true)
    ensures !r.Rejected? ==> (r.BucketTooSmall? <==> TotalBytes(list) > bucket.Length)
    ensures !r.Rejected? ==>
      (r.FetchFailed? <==> TotalBytes(list) <= bucket.Length && exists k | 0 <= k < |list| :: !up(k))
    ensures r.Done? ==> |key.globalOffset| == |target.size|
    ensures r.Done? ==> forall t | InShape(t, target.size) :: target.elements[t] == G(Plus(key.globalOffset, t))
    ensures !r.Done? ==> target.elements == old(target.elements)
  {
    var v, shards, candidates := PlanRead(meta, Shard(key, tensor));
    list := shards;
    if !v.Valid? {
      return Rejected(v), list;
    }
    r := ReadList(meta, remote, rank, shards, key.globalOffset, target, bucket, up, Shard(key, tensor), true, candidates, G);
    if r.Done? {
      AllInParts(shards, candidates, Shard(key, tensor), true);
    }
  }

  // ---------- how much is fetched ----------

  /** The target takes whole rows of every shard that it meets. */
  ghost predicate AllInRows(meta: TransferMeta, target: Shard)
    requires GoodShards(meta, target.key.key)
  {
    forall key | key in meta && key.key == target.key.key ::
      var c := Shard(key, Last(meta[key]).tensor);
      Meets(c, target) ==> TakesRows(c, target)
  }

  ghost function Parts(list: seq<RemoteShard>): seq<Box> {
    seq(|list|, k requires 0 <= k < |list| => PartOf(list[k]))
  }

  lemma {:induction false} TotalIsVolume(list: seq<RemoteShard>, w: nat)
    requires forall k | 0 <= k < |list| :: list[k].tensor.dtype.itemSize == w
    ensures TotalBytes(list) == Volume(Parts(list)) * w
  {
    if list != [] {
      var front, last := list[..|list| - 1], list[|list| - 1];
      TotalIsVolume(front, w);
      assert Parts(list)[..|front|] == Parts(front) && Sizes(list)[..|front|] == Sizes(front);
      assert Parts(list)[|front|] == PartOf(last) && Sizes(list)[|front|] == ByteSize(last.tensor);
    }
  }

  /** An entry of the list is the common part of its shard with a target that takes whole rows. */
  lemma PartIsCommon(meta: TransferMeta, r: RemoteShard, candidates: seq<Shard>, target: Shard) returns (c: Shard)
    requires GoodShards(meta, target.key.key) && AllInRows(meta, target)
    requires Sourced(candidates, meta, target.key.key) && FromSome(r, candidates, target, true)
    ensures c in candidates && c.key == r.raw && Meets(c, target) && r.tensor.dtype == c.tensor.dtype
    ensures PartOf(r) == Intersect(BoxOf(c), BoxOf(target))
  {
    var i :| 0 <= i < |candidates| && MadeFrom(r, candidates[i], target, true);
    c := candidates[i];
    assert c == Shard(c.key, Last(meta[c.key]).tensor);
  }

  /** Then exactly the target's bytes are fetched, so a bucket is too small only if the target itself is
      larger. */
  lemma NothingExtra(meta: TransferMeta, list: seq<RemoteShard>, candidates: seq<Shard>, target: Shard)
    requires GoodShards(meta, target.key.key) && DisjointShards(meta, target.key.key) && AllInRows(meta, target)
    requires Sourced(candidates, meta, target.key.key) && FetchList(list, candidates, target, true) && Shaped(target)
    requires forall k | 0 <= k < |candidates| :: candidates[k].tensor.dtype == target.tensor.dtype
    ensures TotalBytes(list) == Product(target.tensor.size) * target.tensor.dtype.itemSize
  {
    forall k | 0 <= k < |list|
      ensures list[k].tensor.dtype == target.tensor.dtype
      ensures |Parts(list)[k].offset| == |Parts(list)[k].size| && NonNegative(Parts(list)[k].size)
      ensures forall g | Contains(Parts(list)[k], g) :: Contains(BoxOf(target), g)
    {
      assert FromSome(list[k], candidates, target, true);
      var c := PartIsCommon(meta, list[k], candidates, target);
    }
    forall j, k | 0 <= j < k < |list|
      ensures Disjoint(Parts(list)[j], Parts(list)[k])
    {
      PartsApart(meta, list, candidates, target, j, k);
    }
    forall g
      ensures Contains(BoxOf(target), g) <==> exists k | 0 <= k < |list| :: Contains(Parts(list)[k], g)
    {
      if Contains(BoxOf(target), g) {
        assert InParts(list, g);
        var k :| 0 <= k < |list| && Contains(PartOf(list[k]), g);
        assert Contains(Parts(list)[k], g);
      }
    }
    TilingVolume(Parts(list), BoxOf(target));
    TotalIsVolume(list, target.tensor.dtype.itemSize);
  }

  lemma PartsApart(meta: TransferMeta, list: seq<RemoteShard>, candidates: seq<Shard>, target: Shard, j: nat, k: nat)
    requires GoodShards(meta, target.key.key) && DisjointShards(meta, target.key.key) && AllInRows(meta, target)
    requires Sourced(candidates, meta, target.key.key) && FetchList(list, candidates, target, true)
    requires j < k < |list|
    ensures Disjoint(PartOf(list[j]), PartOf(list[k]))
  {
    assert FromSome(list[j], candidates, target, true) && FromSome(list[k], candidates, target, true);
    var a := PartIsCommon(meta, list[j], candidates, target);
    var b := PartIsCommon(meta, list[k], candidates, target);
    assert a.key != b.key && a.key in meta && b.key in meta;
    assert a == Shard(a.key, Last(meta[a.key]).tensor) && b == Shard(b.key, Last(meta[b.key]).tensor);
    assert Disjoint(BoxOf(a), BoxOf(b));
  }

  /** Every element of the target the list was made for is in one of its parts. */
  lemma AllInParts(list: seq<RemoteShard>, candidates: seq<Shard>, target: Shard, prune: bool)
    requires FetchList(list, candidates, target, prune) && |target.key.globalOffset| == |target.tensor.size|
    ensures forall t | InShape(t, target.tensor.size) :: InParts(list, Plus(target.key.globalOffset, t))
  {
    forall t | InShape(t, target.tensor.size)
      ensures InParts(list, Plus(target.key.globalOffset, t))
    {
      assert Contains(BoxOf(target), Plus(target.key.globalOffset, t));
    }
  }

  /** The dictionary and the list have the same parts. */
  lemma SameParts(tensors: map<ShardedKey, Staged>, list: seq<RemoteShard>, at: seq<nat>, g: seq<int>)
    requires Dictionary(list, at, tensors)
    ensures HeldBy(tensors, tensors.Keys, g) <==> InParts(list, g)
  {
    if key :| key in tensors && Contains(Box(key.globalOffset, tensors[key].tensor.size), g) {
      var k :| 0 <= k < |list| && list[k].adjusted == key;
      assert Contains(PartOf(list[k]), g);
    }
    if k :| 0 <= k < |list| && Contains(PartOf(list[k]), g) {
      assert list[k].adjusted in tensors.Keys && tensors[list[k].adjusted].tensor == list[k].tensor;
    }
  }

  /** Every entry of the dictionary is a staged part. */
  lemma DictionaryHolds(tensors: map<ShardedKey, Staged>, list: seq<RemoteShard>, at: seq<nat>, bytes: seq<Byte>,
                        target: Shard, G: seq<int> -> seq<Byte>)
    requires Dictionary(list, at, tensors)
    requires forall k | 0 <= k < |list| ::
      && |list[k].adjusted.globalOffset| == |target.tensor.size|
      && StagedHolds(bytes, Staged(at[k], list[k].tensor), list[k].adjusted.globalOffset, G)
    ensures forall key | key in tensors ::
      |key.globalOffset| == |target.tensor.size| && StagedHolds(bytes, tensors[key], key.globalOffset, G)
  {
    forall key | key in tensors
      ensures |key.globalOffset| == |target.tensor.size| && StagedHolds(bytes, tensors[key], key.globalOffset, G)
    {
      var k :| 0 <= k < |list| && list[k].adjusted == key;
      assert StagedHolds(bytes, Staged(at[k], list[k].tensor), list[k].adjusted.globalOffset, G);
    }
  }

  /** The request can be served: some shard of the tensor exists, all match the target's shape and
      type, the target lies inside the tensor, and the shards cover it. */
  ghost predicate CoveredRequest(meta: TransferMeta, target: Shard)
    requires GoodShards(meta, target.key.key)
  {
    && InsideGlobal(target) && Positive(target.tensor.size)
    && (exists key :: key in meta && key.key == target.key.key)
    && (forall key | key in meta && key.key == target.key.key ::
          key.globalShape == target.key.globalShape && Last(meta[key]).tensor.dtype == target.tensor.dtype)
    && (forall c | Contains(BoxOf(target), c) ::
          exists key :: key in meta && key.key == target.key.key && Contains(BoxOf(Shard(key, Last(meta[key]).tensor)), c))
  }

  lemma RequestCandidates(meta: TransferMeta, target: Shard, candidates: seq<Shard>)
    requires GoodShards(meta, target.key.key) && CoveredRequest(meta, target)
    requires Sourced(candidates, meta, target.key.key)
    requires forall key | key in meta && key.key == target.key.key :: Shard(key, Last(meta[key]).tensor) in candidates
    ensures candidates != [] && ShardsOfSame(candidates, target) && Covers(candidates, target)
    ensures forall i | 0 <= i < |candidates| :: candidates[i].tensor.dtype == target.tensor.dtype
  {
    var key :| key in meta && key.key == target.key.key;
    assert Shard(key, Last(meta[key]).tensor) in candidates;
    forall i | 0 <= i < |candidates|
      ensures InsideGlobal(candidates[i]) && candidates[i].key.globalShape == target.key.globalShape
      ensures candidates[i].tensor.dtype == target.tensor.dtype
    {
      assert candidates[i] == Shard(candidates[i].key, Last(meta[candidates[i].key]).tensor);
    }
    forall c | Contains(BoxOf(target), c)
      ensures exists i | 0 <= i < |candidates| :: Contains(BoxOf(candidates[i]), c)
    {
      var k :| k in meta && k.key == target.key.key && Contains(BoxOf(Shard(k, Last(meta[k]).tensor)), c);
      var i :| 0 <= i < |candidates| && candidates[i] == Shard(k, Last(meta[k]).tensor);
    }
  }

  /** A request whose candidates pass the check can be served. */
  lemma ServedIsCovered(meta: TransferMeta, target: Shard, candidates: seq<Shard>)
    requires GoodShards(meta, target.key.key) && Sourced(candidates, meta, target.key.key)
    requires forall key | key in meta && key.key == target.key.key :: Shard(key, Last(meta[key]).tensor) in candidates
    requires ShardsOfSame(candidates, target) && Covers(candidates, target)
    requires forall k | 0 <= k < |candidates| :: candidates[k].tensor.dtype == target.tensor.dtype
    ensures Positive(target.tensor.size) ==> CoveredRequest(meta, target)
  {
    if Positive(target.tensor.size) {
      forall c | Contains(BoxOf(target), c)
        ensures exists key :: key in meta && key.key == target.key.key && Contains(BoxOf(Shard(key, Last(meta[key]).tensor)), c)
      {
        var i :| 0 <= i < |candidates| && Contains(BoxOf(candidates[i]), c);
        assert candidates[i] == Shard(candidates[i].key, Last(meta[candidates[i].key]).tensor);
      }
      assert Contains(BoxOf(target), target.key.globalOffset);
    }
  }

  /** What LayOut needs to know about the fetch list. */
  lemma PlanFits(meta: TransferMeta, list: seq<RemoteShard>, candidates: seq<Shard>, target: Shard, prune: bool)
    requires GoodShards(meta, target.key.key) && DisjointShards(meta, target.key.key)
    requires Sourced(candidates, meta, target.key.key) && FetchList(list, candidates, target, prune)
    ensures NonNegative(Sizes(list))
    ensures forall k | 0 <= k < |list| :: |list[k].adjusted.globalOffset| == |target.tensor.size|
    ensures forall j, k | 0 <= j < k < |list| :: list[j].adjusted != list[k].adjusted
  {
    forall k | 0 <= k < |list|
      ensures Sizes(list)[k] >= 0 && |list[k].adjusted.globalOffset| == |target.tensor.size|
    {
      assert FromSome(list[k], candidates, target, prune);
      ProductNonNegative(list[k].tensor.size);
      MulMono(0, Product(list[k].tensor.size), list[k].tensor.dtype.itemSize);
    }
    forall j, k | 0 <= j < k < |list|
      ensures list[j].adjusted != list[k].adjusted
    {
      AdjustedKeysDistinct(list, candidates, target, prune, j, k);
    }
  }
}
