/** The table's cache of fetch lists: a question is answered once per key. */
module ShardMapping {
  import opened Boxes
  import opened Shards
  import opened CopyPlan
  import opened NodeEntries
  import opened ReadPath

  /** A question about a key: the target tensor, and whether shards may be pruned. */
  type Question = (TensorMeta, bool)

  /** The list answers the question about the key. */
  ghost predicate Answers(meta: TransferMeta, key: ShardedKey, q: Question, list: seq<RemoteShard>, candidates: seq<Shard>) {
    && GoodShards(meta, key.key) && Sourced(candidates, meta, key.key)
    && ShardsOfSame(candidates, Shard(key, q.0)) && Covers(candidates, Shard(key, q.0))
    && FetchList(list, candidates, Shard(key, q.0), q.1)
  }

  /** A question that is asked for the first time. */
  method Ask(meta: TransferMeta, target: Shard, prune: bool)
    returns (v: Verdict, list: seq<RemoteShard>, candidates: seq<Shard>)
    requires GoodShards(meta, target.key.key)
    requires |target.key.globalOffset| == |target.key.globalShape|
    requires NonNegative(target.key.globalOffset) && NonNegative(target.tensor.size)
    ensures v.Valid? ==> Answers(meta, target.key, (target.tensor, prune), list, candidates)
    ensures !v.Valid? ==> !CoveredRequest(meta, target)
  {
    v, list, candidates := ReadPath.GetRemoteTensorShards(meta, target, prune);
    if !v.Valid? && CoveredRequest(meta, target) {
      RequestCandidates(meta, target, candidates);
    }
  }

  /** What a read of `tensor` with a list made for question q does. It fails exactly for lack of room or
      by the transport, and then changes nothing. Otherwise the elements some part holds are G's and the
      others stay; all are G's if the target is not larger than the one the question was about. */
  ghost predicate ReadMeans(r: ReadOutcome, list: seq<RemoteShard>, room: nat, up: nat -> bool,
                            was: map<seq<int>, seq<Byte>>, now: map<seq<int>, seq<Byte>>, tensor: TensorMeta,
                            key: ShardedKey, q: Question, G: seq<int> -> seq<Byte>) {
    && |key.globalOffset| == |tensor.size|
    && (r.BucketTooSmall? <==> TotalBytes(list) > room)
    && (r.FetchFailed? <==> TotalBytes(list) <= room && exists k | 0 <= k < |list| :: !up(k))
    && (!r.Done? ==> now == was)
    && (r.Done? ==> ReadInto(was, now, tensor.size, key.globalOffset, list, G))
    && (r.Done? && NotLarger(tensor, q.0) ==>
          forall t | InShape(t, tensor.size) :: t in now && now[t] == G(Plus(key.globalOffset, t)))
  }

  /** The read with a list that answers question q about the key. */
  method ReadAnswer(meta: TransferMeta, remote: Remote, rank: nat, key: ShardedKey, tensor: TensorMeta, list: seq<RemoteShard>,
                    target: TargetTensor, bucket: array<Byte>, up: nat -> bool, ghost q: Question,
                    ghost candidates: seq<Shard>, ghost G: seq<int> -> seq<Byte>)
    returns (r: ReadOutcome)
    requires target.Valid() && tensor.size == target.size && SameKind(tensor, q.0)
    requires Answers(meta, key, q, list, candidates) && DisjointShards(meta, key.key)
    requires Published(meta, remote, key.key, rank, G) && OffsetsAgree(meta, Shard(key, q.0), rank, q.1)
    modifies target, bucket
    ensures target.Valid() && !r.Rejected?
    ensures ReadMeans(r, list, bucket.Length, up, old(target.elements), target.elements, tensor, key, q, G)
  {
    ghost var was := target.elements;
    r := ReadList(meta, remote, rank, list, key.globalOffset, target, bucket, up, Shard(key, q.0), q.1, candidates, G);
    if r.Done? && NotLarger(tensor, q.0) {
      SmallerIsRead(was, target.elements, tensor, key, q, list, candidates, G);
    }
  }

  class ShardTable {
    const meta: TransferMeta
    var mapping: map<ShardedKey, seq<RemoteShard>>
    ghost var asked: map<ShardedKey, Question>
    ghost var chosen: map<ShardedKey, seq<Shard>>

    ghost predicate Valid()
      reads this
    {
      && mapping.Keys == asked.Keys == chosen.Keys
      && forall key {:trigger Kept(key)} | key in mapping :: Kept(key)
    }

    /** The kept list of a key answers the first question about it. */
    ghost predicate Kept(key: ShardedKey)
      requires key in mapping && key in asked && key in chosen
      reads this
    {
      Answers(meta, key, asked[key], mapping[key], chosen[key])
    }

    constructor (meta: TransferMeta)
      ensures Valid() && this.meta == meta && asked == map[]
    {
      this.meta := meta;
      mapping, asked, chosen := map[], map[], map[];
    }

    /** GetRemoteTensorShards with its cache. A request is rejected only when it is new and the shards do
        not serve it. The list answers the first question that was asked about its key; it answers this
        one whenever the target and the mode are the same as then. */
    method GetRemoteTensorShards(target: Shard, prune: bool) returns (v: Verdict, list: seq<RemoteShard>)
      requires Valid() && GoodShards(meta, target.key.key)
      requires |target.key.globalOffset| == |target.key.globalShape|
      requires NonNegative(target.key.globalOffset) && NonNegative(target.tensor.size)
      modifies this
      ensures Valid()
      ensures v.Valid? ==>
        && asked == (if target.key in old(asked) then old(asked) else old(asked)[target.key := (target.tensor, prune)])
        && target.key in chosen && Answers(meta, target.key, asked[target.key], list, chosen[target.key])
      ensures !v.Valid? ==> asked == old(asked) && target.key !in asked && !CoveredRequest(meta, target)
      ensures forall key | key in old(mapping) :: key in mapping && mapping[key] == old(mapping)[key]
    {
      if target.key in mapping {
        assert Kept(target.key);
        return CopyPlan.Verdict.Valid, mapping[target.key];
      }
      var candidates;
      v, list, candidates := Ask(meta, target, prune);
      if !v.Valid? {
        return;
      }
      mapping, asked, chosen := mapping[target.key := list], asked[target.key := (target.tensor, prune)], chosen[target.key := candidates];
      forall key {:trigger Kept(key)} | key in mapping
        ensures Kept(key)
      {
        assert key != target.key ==> old(Kept(key));
      }
    }

    /** ReadTensors and the copy loop, through the cache, in any round: `remote` and `G` are what the
        senders published for it. A key that was asked about before is answered from the kept list, which
        was made for the target of then. A target that is not larger than that one is read like the first;
        of a larger one, the elements that no kept part holds stay what they are. */
    method ReadTarget(remote: Remote, rank: nat, key: ShardedKey, tensor: TensorMeta, target: TargetTensor,
                      bucket: array<Byte>, up: nat -> bool, ghost G: seq<int> -> seq<Byte>)
      returns (r: ReadOutcome, ghost list: seq<RemoteShard>)
      requires Valid() && target.Valid() && tensor.size == target.size && NonNegative(target.size)
      requires |key.globalOffset| == |key.globalShape| && NonNegative(key.globalOffset)
      requires GoodShards(meta, key.key) && DisjointShards(meta, key.key) && Published(meta, remote, key.key, rank, G)
      requires key in asked ==> SameKind(tensor, asked[key].0)
      requires OffsetsAgree(meta, Shard(key, First(key, tensor).0), rank, First(key, tensor).1)
      modifies this, target, bucket
      ensures Valid() && target.Valid()
      ensures r.Rejected? ==> key !in asked && !CoveredRequest(meta, Shard(key, tensor))
      ensures r.Rejected? ==> asked == old(asked) && target.elements == old(target.elements)
      ensures !r.Rejected? ==>
        && asked == old(asked)[key := old(First(key, tensor))] && key in chosen
        && Answers(meta, key, asked[key], list, chosen[key])
        && ReadMeans(r, list, bucket.Length, up, old(target.elements), target.elements, tensor, key, asked[key], G)
    {
      ghost var q := First(key, tensor);
      var v, shards := GetRemoteTensorShards(Shard(key, tensor), true);
      list := shards;
      if !v.Valid? {
        return Rejected(v), list;
      }
      r := ReadAnswer(meta, remote, rank, key, tensor, shards, target, bucket, up, q, chosen[key], G);
    }

    /** The first question about the key, this one if there was none before. */
    ghost function First(key: ShardedKey, tensor: TensorMeta): Question
      reads this
    {
      if key in asked then asked[key] else (tensor, true)
    }
  }

  /** A list made for a target holds every element of one at the same place that is not larger. */
  lemma SmallerIsRead(was: map<seq<int>, seq<Byte>>, now: map<seq<int>, seq<Byte>>, tensor: TensorMeta, key: ShardedKey,
                      q: Question, list: seq<RemoteShard>, candidates: seq<Shard>, G: seq<int> -> seq<Byte>)
    requires |key.globalOffset| == |tensor.size| && NotLarger(tensor, q.0)
    requires FetchList(list, candidates, Shard(key, q.0), q.1)
    requires ReadInto(was, now, tensor.size, key.globalOffset, list, G)
    ensures forall t | InShape(t, tensor.size) :: t in now && now[t] == G(Plus(key.globalOffset, t))
  {
    AllInParts(list, candidates, Shard(key, q.0), q.1);
    forall t | InShape(t, tensor.size)
      ensures InParts(list, Plus(key.globalOffset, t))
    {
      assert InShape(t, q.0.size);
    }
  }

  /** Number of dimensions and element type are the same. */
  predicate SameKind(a: TensorMeta, b: TensorMeta) {
    |a.size| == |b.size| && a.dtype == b.dtype
  }

  predicate NotLarger(a: TensorMeta, b: TensorMeta) {
    |a.size| == |b.size| && forall i | 0 <= i < |a.size| :: a.size[i] <= b.size[i]
  }

  // ---------- which targets a kept list serves ----------

  /** The target is read right, whatever the tensor holds. */
  ghost predicate AllRead(now: map<seq<int>, seq<Byte>>, size: seq<int>, offset: seq<int>, G: seq<int> -> seq<Byte>)
    requires |offset| == |size|
  {
    forall t | InShape(t, size) :: t in now && now[t] == G(Plus(offset, t))
  }

  /** A read with a kept list is right for every tensor if and only if all elements of the target lie in
      its parts. */
  lemma RereadExact(was: map<seq<int>, seq<Byte>>, size: seq<int>, offset: seq<int>, list: seq<RemoteShard>)
    requires |offset| == |size| && forall t | InShape(t, size) :: t in was
    ensures (forall t | InShape(t, size) :: InParts(list, Plus(offset, t))) <==>
            (forall now, G | ReadInto(was, now, size, offset, list, G) :: AllRead(now, size, offset, G))
  {
    forall t | InShape(t, size) && !InParts(list, Plus(offset, t))
      ensures exists now, G :: ReadInto(was, now, size, offset, list, G) && !AllRead(now, size, offset, G)
    {
      var now, G := Unread(was, size, offset, list, t);
      assert ReadInto(was, now, size, offset, list, G) && !AllRead(now, size, offset, G);
    }
  }

  /** A tensor that a read with this list gets wrong at an element outside its parts. */
  lemma Unread(was: map<seq<int>, seq<Byte>>, size: seq<int>, offset: seq<int>, list: seq<RemoteShard>, t: seq<int>)
    returns (now: map<seq<int>, seq<Byte>>, G: seq<int> -> seq<Byte>)
    requires |offset| == |size| && InShape(t, size) && !InParts(list, Plus(offset, t))
    requires forall x | InShape(x, size) :: x in was
    ensures ReadInto(was, now, size, offset, list, G) && now[t] != G(Plus(offset, t))
  {
    var other: seq<Byte> := if was[t] == [0] then [1] else [0];
    G := g => other;
    now := map x | x in was :: if |x| == |offset| && InParts(list, Plus(offset, x)) then other else was[x];
  }

  /** The parts of a list made for a question are exactly those of the shards that meet its target. */
  lemma PartsExactly(meta: TransferMeta, key: ShardedKey, q: Question, list: seq<RemoteShard>, candidates: seq<Shard>, g: seq<int>)
    requires Answers(meta, key, q, list, candidates)
    ensures InParts(list, g) <==>
            exists i :: 0 <= i < |candidates| && Meets(candidates[i], Shard(key, q.0))
                        && Contains(Part(candidates[i], Shard(key, q.0), q.1), g)
  {
    var target := Shard(key, q.0);
    if k :| 0 <= k < |list| && Contains(PartOf(list[k]), g) {
      assert FromSome(list[k], candidates, target, q.1);
      var i :| 0 <= i < |candidates| && MadeFrom(list[k], candidates[i], target, q.1);
    }
    if i :| 0 <= i < |candidates| && Meets(candidates[i], target) && Contains(Part(candidates[i], target, q.1), g) {
      assert Fetches(list, candidates[i].key);
      var k :| 0 <= k < |list| && list[k].raw == candidates[i].key;
      assert FromSome(list[k], candidates, target, q.1);
      var j :| 0 <= j < |candidates| && MadeFrom(list[k], candidates[j], target, q.1);
      assert candidates[j] == candidates[i];
    }
  }

  /** A tensor of one dimension and four-byte elements, at offset zero of a tensor of two. */
  function Vector(n: nat): TensorMeta { TensorMeta([n], [1], 0, Dtype(6, 4)) }

  const PAIR: ShardedKey := ShardedKey("w", [2], [0])

  /** One shard holds both elements. */
  function PairMeta(node: NodeInfo): TransferMeta {
    map[PAIR := [Replica(0, 8, "", node, Vector(2))]]
  }

  lemma PairIsGood(node: NodeInfo)
    ensures GoodShards(PairMeta(node), "w")
  {
    assert Vector(2).size[1..] == [];
  }

  lemma PairIsCovered(node: NodeInfo, n: nat)
    requires 1 <= n <= 2
    ensures GoodShards(PairMeta(node), "w") && CoveredRequest(PairMeta(node), Shard(PAIR, Vector(n)))
  {
    PairIsGood(node);
    var meta, target := PairMeta(node), Shard(PAIR, Vector(n));
    assert PAIR in meta && Last(meta[PAIR]).tensor == Vector(2);
    forall c | Contains(BoxOf(target), c)
      ensures Contains(BoxOf(Shard(PAIR, Vector(2))), c)
    {
      assert BoxOf(target).offset[0] <= c[0] < BoxOf(target).offset[0] + BoxOf(target).size[0];
    }
  }

  /** Of the shard, a target that is the first element takes the first element. */
  lemma FirstOfPair()
    ensures var shard, asked := Shard(PAIR, Vector(2)), Shard(PAIR, Vector(1));
            Meets(shard, asked) && Part(shard, asked, true) == Box([0], [1])
  {
    assert Intersect(BoxOf(Shard(PAIR, Vector(2))), BoxOf(Shard(PAIR, Vector(1)))) == Box([0], [1]);
  }

  lemma SecondIsMissing(node: NodeInfo, list: seq<RemoteShard>, candidates: seq<Shard>)
    requires Answers(PairMeta(node), PAIR, (Vector(1), true), list, candidates)
    ensures !InParts(list, [1])
  {
    PartsExactly(PairMeta(node), PAIR, (Vector(1), true), list, candidates, [1]);
    FirstOfPair();
    assert !Contains(Box([0], [1]), [1]) by {
      assert Box([0], [1]).offset[0] + Box([0], [1]).size[0] <= [1][0];
    }
    forall i | 0 <= i < |candidates|
      ensures candidates[i] == Shard(PAIR, Vector(2))
    {
      assert candidates[i].key in PairMeta(node);
    }
  }

  /** If the first element alone was asked for before, a read of both, which the shard covers, finds a
      list without the second. */
  lemma LargerTargetMissed(node: NodeInfo)
    ensures GoodShards(PairMeta(node), "w")
    ensures CoveredRequest(PairMeta(node), Shard(PAIR, Vector(1))) && CoveredRequest(PairMeta(node), Shard(PAIR, Vector(2)))
    ensures forall list, candidates | Answers(PairMeta(node), PAIR, (Vector(1), true), list, candidates) :: !InParts(list, [1])
  {
    PairIsCovered(node, 1);
    PairIsCovered(node, 2);
    forall list, candidates | Answers(PairMeta(node), PAIR, (Vector(1), true), list, candidates)
      ensures !InParts(list, [1])
    {
      SecondIsMissing(node, list, candidates);
    }
  }
}
