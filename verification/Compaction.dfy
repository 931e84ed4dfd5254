/** Compaction of small reads: shards that live in one remote buffer are fetched by one read of
    that buffer. */
module Compaction {
  import opened FiniteSets
  import opened Shards
  import opened Boxes
  import opened Pruning
  import opened ReadPath
  import opened NodeEntries

  type Tensors = map<ShardedKey, TensorMeta>

  /** A registered buffer: its node and base address. */
  type Place = (NodeInfo, int)

  function PlaceOf(r: Replica): Place { (r.node, r.addr) }

  /** CompactTensorInfo: one read, and the shards it brings. */
  datatype CompactInfo = CompactInfo(place: Place, size: nat, tensors: Tensors)

  /** Replica i is the first of the list that lives at this place. */
  predicate FirstAt(list: seq<Replica>, i: int, place: Place) {
    0 <= i < |list| && PlaceOf(list[i]) == place && forall j | 0 <= j < i :: PlaceOf(list[j]) != place
  }

  /** `t` is the tensor of a replica of `key` that lives at `place`. */
  ghost predicate LivesAt(meta: TransferMeta, key: ShardedKey, place: Place, t: TensorMeta) {
    key in meta && exists r :: r in meta[key] && PlaceOf(r) == place && r.tensor == t
  }

  /** It is that of the first one. */
  ghost predicate LivesFirstAt(meta: TransferMeta, key: ShardedKey, place: Place, t: TensorMeta) {
    key in meta && exists i :: FirstAt(meta[key], i, place) && meta[key][i].tensor == t
  }

  /** The map from places to the requested shards there is complete and right. */
  ghost predicate PlacesFit(places: map<Place, Tensors>, meta: TransferMeta) {
    && (forall p, k | p in places && k in places[p] :: LivesFirstAt(meta, k, p, places[p][k]))
    && (forall k, r | k in meta && r in meta[k] :: PlaceOf(r) in places && k in places[PlaceOf(r)])
  }

  function AddPlace(places: map<Place, Tensors>, key: ShardedKey, r: Replica): map<Place, Tensors> {
    var here := if PlaceOf(r) in places then places[PlaceOf(r)] else map[];
    // emplace: an entry that is there stays
    places[PlaceOf(r) := if key in here then here else here[key := r.tensor]]
  }

  /** The inner loop over the replicas of one requested shard. */
  method AddReplicas(places: map<Place, Tensors>, done: TransferMeta, key: ShardedKey, list: seq<Replica>)
    returns (places': map<Place, Tensors>)
    requires PlacesFit(places, done) && key !in done
    ensures PlacesFit(places', done[key := list])
  {
    places' := places;
    for i := 0 to |list|
      invariant forall p, k | p in places' && k in places'[p] :: LivesFirstAt(done[key := list[..i]], k, p, places'[p][k])
      invariant forall k, r | k in done && r in done[k] :: PlaceOf(r) in places' && k in places'[PlaceOf(r)]
      invariant forall r | r in list[..i] :: PlaceOf(r) in places' && key in places'[PlaceOf(r)]
    {
      ghost var before := places';
      places' := AddPlace(places', key, list[i]);
      assert list[..i + 1] == list[..i] + [list[i]];
      forall p, k | p in places' && k in places'[p]
        ensures LivesFirstAt(done[key := list[..i + 1]], k, p, places'[p][k])
      {
        AddedPlace(before, done, key, list, i, p, k);
      }
    }
    assert list[..|list|] == list;
  }

  lemma AddedPlace(before: map<Place, Tensors>, done: TransferMeta, key: ShardedKey, list: seq<Replica>, i: nat,
                   p: Place, k: ShardedKey)
    requires i < |list| && key !in done
    requires forall p, k | p in before && k in before[p] :: LivesFirstAt(done[key := list[..i]], k, p, before[p][k])
    requires forall r | r in list[..i] :: PlaceOf(r) in before && key in before[PlaceOf(r)]
    requires p in AddPlace(before, key, list[i]) && k in AddPlace(before, key, list[i])[p]
    ensures LivesFirstAt(done[key := list[..i + 1]], k, p, AddPlace(before, key, list[i])[p][k])
  {
    if p in before && k in before[p] {
      assert LivesFirstAt(done[key := list[..i]], k, p, before[p][k]);
      StillFirst(done, key, list, i, p, k, before[p][k]);
    } else {
      assert forall j | 0 <= j < i :: list[j] in list[..i];
      assert FirstAt(list[..i + 1], i, p);
    }
  }

  lemma StillFirst(done: TransferMeta, key: ShardedKey, list: seq<Replica>, i: nat, p: Place, k: ShardedKey, t: TensorMeta)
    requires i < |list| && LivesFirstAt(done[key := list[..i]], k, p, t)
    ensures LivesFirstAt(done[key := list[..i + 1]], k, p, t)
  {
    var before, after := done[key := list[..i]], done[key := list[..i + 1]];
    var j :| FirstAt(before[k], j, p) && before[k][j].tensor == t;
    if k == key {
      assert before[k] == list[..i] && after[k] == list[..i + 1];
    }
    assert FirstAt(after[k], j, p) && after[k][j].tensor == t;
  }

  /** First half of GetCompactTensorInfos: the requested part of the metadata, by shard and by place. */
  method CollectPlaces(meta: TransferMeta, requested: Tensors)
    returns (target: TransferMeta, places: map<Place, Tensors>)
    ensures target.Keys == meta.Keys * requested.Keys
    ensures forall k | k in target :: target[k] == meta[k]
    ensures PlacesFit(places, target)
  {
    target, places := map[], map[];
    var rest := meta.Keys;
    while rest != {}
      invariant rest <= meta.Keys
      invariant target.Keys == (meta.Keys - rest) * requested.Keys
      invariant forall k | k in target :: target[k] == meta[k]
      invariant PlacesFit(places, target)
      decreases rest
    {
      var key :| key in rest;
      rest := rest - {key};
      if key in requested {
        places := AddReplicas(places, target, key, meta[key]);
        target := target[key := meta[key]];
      }
    }
  }

  // ---------- the reads ----------

  /** The read was made for shard `first`, with the tensor of the request, from the buffer of its last
      replica; every other shard in it is a replica in the same buffer. */
  ghost predicate MadeFor(info: CompactInfo, first: ShardedKey, requested: Tensors, meta: TransferMeta) {
    && first in info.tensors && first in requested && info.tensors[first] == requested[first]
    && first in meta && meta[first] != []
    && PlaceOf(Last(meta[first])) == info.place && Last(meta[first]).size == info.size
    && forall k | k in info.tensors && k != first :: LivesFirstAt(meta, k, info.place, info.tensors[k])
  }

  ghost predicate InfoFits(info: CompactInfo, requested: Tensors, meta: TransferMeta) {
    exists first :: MadeFor(info, first, requested, meta)
  }

  /** `all` splits into `left`, still to read, and the shards of the reads, each read once. */
  ghost predicate ShardsOnce(infos: seq<CompactInfo>, left: set<ShardedKey>, all: set<ShardedKey>) {
    if infos == [] then left == all else
      var keys := infos[|infos| - 1].tensors.Keys;
      keys !! left && ShardsOnce(infos[..|infos| - 1], left + keys, all)
  }

  ghost function PlacesRead(infos: seq<CompactInfo>): set<Place> {
    if infos == [] then {} else PlacesRead(infos[..|infos| - 1]) + {infos[|infos| - 1].place}
  }

  ghost predicate BuffersOnce(infos: seq<CompactInfo>) {
    infos != [] ==>
      infos[|infos| - 1].place !in PlacesRead(infos[..|infos| - 1]) && BuffersOnce(infos[..|infos| - 1])
  }

  ghost predicate AllFit(infos: seq<CompactInfo>, requested: Tensors, meta: TransferMeta) {
    infos != [] ==> InfoFits(infos[|infos| - 1], requested, meta) && AllFit(infos[..|infos| - 1], requested, meta)
  }

  /** No shard still to read has a replica in a buffer that was read. */
  ghost predicate NotInRead(left: TransferMeta, places: set<Place>) {
    forall k, r | k in left && r in left[k] :: PlaceOf(r) !in places
  }

  /** The inner loop of CompactTensorInfos: all shards at a place that are still to read. */
  method TakePlace(shards: Tensors, left: TransferMeta, first: ShardedKey, firstTensor: TensorMeta)
    returns (left': TransferMeta, tensors: Tensors)
    requires first in left && first in shards
    ensures first in tensors && tensors[first] == firstTensor
    ensures forall k | k in tensors :: k in left && k in shards
    ensures forall k | k in tensors && k != first :: tensors[k] == shards[k]
    ensures left'.Keys == left.Keys - tensors.Keys
    ensures forall k | k in left' :: k !in shards && left'[k] == left[k]
  {
    left', tensors := left, map[first := firstTensor];
    var rest := shards.Keys;
    while rest != {}
      invariant rest <= shards.Keys
      invariant first in tensors && tensors[first] == firstTensor
      invariant forall k | k in tensors :: k in left && k in shards
      invariant forall k | k in tensors && k != first :: tensors[k] == shards[k]
      invariant forall k :: k in left' <==> k in left && (k in shards ==> k in rest)
      invariant forall k | k in left' :: left'[k] == left[k]
      invariant forall k :: k in tensors <==> k == first || (k in left && k in shards && k !in rest)
      decreases rest
    {
      var key :| key in rest;
      rest := rest - {key};
      if key in left' {
        left' := left' - {key};
        if key !in tensors {
          tensors := tensors[key := shards[key]];
        }
      }
    }
  }

  /** Every shard of `all` that is not left is in some read. */
  lemma {:induction false} ShardIsRead(infos: seq<CompactInfo>, left: set<ShardedKey>, all: set<ShardedKey>, k: ShardedKey)
    returns (i: nat)
    requires ShardsOnce(infos, left, all) && k in all && k !in left
    ensures i < |infos| && k in infos[i].tensors
  {
    i := |infos| - 1;
    if k !in infos[i].tensors {
      i := ShardIsRead(infos[..i], left + infos[i].tensors.Keys, all, k);
    }
  }

  lemma {:induction false} ReadInside(infos: seq<CompactInfo>, left: set<ShardedKey>, all: set<ShardedKey>, i: nat)
    requires ShardsOnce(infos, left, all) && i < |infos|
    ensures infos[i].tensors.Keys <= all && infos[i].tensors.Keys !! left
  {
    var keys := infos[|infos| - 1].tensors.Keys;
    if i < |infos| - 1 {
      ReadInside(infos[..|infos| - 1], left + keys, all, i);
    } else {
      LeftInside(infos[..|infos| - 1], left + keys, all);
    }
  }

  lemma {:induction false} LeftInside(infos: seq<CompactInfo>, left: set<ShardedKey>, all: set<ShardedKey>)
    requires ShardsOnce(infos, left, all)
    ensures left <= all
  {
    if infos != [] {
      LeftInside(infos[..|infos| - 1], left + infos[|infos| - 1].tensors.Keys, all);
    }
  }

  lemma {:induction false} ReadsApart(infos: seq<CompactInfo>, left: set<ShardedKey>, all: set<ShardedKey>, i: nat, j: nat)
    requires ShardsOnce(infos, left, all) && i < j < |infos|
    ensures infos[i].tensors.Keys !! infos[j].tensors.Keys
  {
    var keys := infos[|infos| - 1].tensors.Keys;
    if j < |infos| - 1 {
      ReadsApart(infos[..|infos| - 1], left + keys, all, i, j);
    } else {
      ReadInside(infos[..|infos| - 1], left + keys, all, i);
    }
  }

  lemma {:induction false} BuffersOnceMeans(infos: seq<CompactInfo>)
    requires BuffersOnce(infos)
    ensures forall i | 0 <= i < |infos| :: infos[i].place in PlacesRead(infos)
    ensures forall i, j | 0 <= i < j < |infos| :: infos[i].place != infos[j].place
  {
    if infos != [] {
      var front := infos[..|infos| - 1];
      BuffersOnceMeans(front);
      assert forall i | 0 <= i < |front| :: front[i] == infos[i];
    }
  }

  lemma {:induction false} AllFitMeans(infos: seq<CompactInfo>, requested: Tensors, meta: TransferMeta, i: nat)
    requires AllFit(infos, requested, meta) && i < |infos|
    ensures InfoFits(infos[i], requested, meta)
  {
    if i < |infos| - 1 {
      AllFitMeans(infos[..|infos| - 1], requested, meta, i);
    }
  }

  lemma OneMoreFits(infos: seq<CompactInfo>, requested: Tensors, target: TransferMeta, info: CompactInfo)
    requires AllFit(infos, requested, target) && InfoFits(info, requested, target)
    ensures AllFit(infos + [info], requested, target)
  {
    assert (infos + [info])[..|infos|] == infos;
  }

  lemma OneMoreRead(infos: seq<CompactInfo>, left: set<ShardedKey>, all: set<ShardedKey>, info: CompactInfo)
    requires ShardsOnce(infos, left, all) && BuffersOnce(infos)
    requires info.tensors.Keys <= left && info.place !in PlacesRead(infos)
    ensures ShardsOnce(infos + [info], left - info.tensors.Keys, all) && BuffersOnce(infos + [info])
    ensures PlacesRead(infos + [info]) == PlacesRead(infos) + {info.place}
  {
    assert (infos + [info])[..|infos|] == infos;
    assert left - info.tensors.Keys + info.tensors.Keys == left;
  }

  datatype Outcome = Compacted(infos: seq<CompactInfo>) | SizeMismatch

  /** A partition of the request: every requested shard is in exactly one read, with the metadata of
      a replica in that read's buffer; nothing else is read; no buffer is read twice. */
  ghost predicate Partition(infos: seq<CompactInfo>, requested: Tensors, meta: TransferMeta) {
    && (forall k | k in requested :: exists i | 0 <= i < |infos| :: k in infos[i].tensors)
    && (forall i, j | 0 <= i < j < |infos| :: infos[i].tensors.Keys !! infos[j].tensors.Keys)
    && (forall i | 0 <= i < |infos| :: infos[i].tensors.Keys <= requested.Keys)
    && AllFit(infos, requested, meta)
    && (forall i, j | 0 <= i < j < |infos| :: infos[i].place != infos[j].place)
  }

  /** The reads so far: every shard that is not left is in one of them, no buffer twice, all metadata
      right; what is left lives in no buffer that was read. */
  ghost predicate ReadSoFar(infos: seq<CompactInfo>, left: TransferMeta, requested: Tensors, target: TransferMeta) {
    && ShardsOnce(infos, left.Keys, requested.Keys) && BuffersOnce(infos) && AllFit(infos, requested, target)
    && NotInRead(left, PlacesRead(infos))
    && forall k | k in left :: k in target && left[k] == target[k]
  }

  /** CompactTensorInfos: in any order of the request. No lookup of it can fail. */
  method CompactTensorInfos(requested: Tensors, places: map<Place, Tensors>, target: TransferMeta)
    returns (infos: seq<CompactInfo>)
    requires PlacesFit(places, target) && target.Keys == requested.Keys
    requires forall k | k in target :: target[k] != []
    ensures Partition(infos, requested, target)
  {
    infos := [];
    var left := target;
    var rest := requested.Keys;
    while rest != {}
      invariant rest <= requested.Keys && left.Keys <= rest
      invariant ReadSoFar(infos, left, requested, target)
      decreases rest
    {
      var key :| key in rest;
      rest := rest - {key};
      if key in left {
        infos, left := ReadNext(requested, places, target, infos, left, key);
      }
    }
    assert left.Keys == {};
    AllRead(infos, requested, target);
  }

  /** One more read, of the buffer that holds `key`. */
  method ReadNext(requested: Tensors, places: map<Place, Tensors>, target: TransferMeta, infos: seq<CompactInfo>,
                  left: TransferMeta, key: ShardedKey)
    returns (infos': seq<CompactInfo>, left': TransferMeta)
    requires PlacesFit(places, target) && target.Keys == requested.Keys && key in left
    requires forall k | k in target :: target[k] != []
    requires ReadSoFar(infos, left, requested, target)
    ensures ReadSoFar(infos', left', requested, target) && left'.Keys <= left.Keys - {key}
  {
    var info;
    info, left' := CompactOne(requested, places, target, left, PlacesRead(infos), key);
    OneMoreRead(infos, left.Keys, requested.Keys, info);
    OneMoreFits(infos, requested, target, info);
    infos' := infos + [info];
  }

  lemma AllRead(infos: seq<CompactInfo>, requested: Tensors, target: TransferMeta)
    requires ShardsOnce(infos, {}, requested.Keys) && BuffersOnce(infos) && AllFit(infos, requested, target)
    ensures Partition(infos, requested, target)
  {
    forall k | k in requested
      ensures exists i | 0 <= i < |infos| :: k in infos[i].tensors
    {
      var i := ShardIsRead(infos, {}, requested.Keys, k);
    }
    forall i | 0 <= i < |infos|
      ensures infos[i].tensors.Keys <= requested.Keys
    {
      ReadInside(infos, {}, requested.Keys, i);
    }
    forall i, j | 0 <= i < j < |infos|
      ensures infos[i].tensors.Keys !! infos[j].tensors.Keys
    {
      ReadsApart(infos, {}, requested.Keys, i, j);
    }
    BuffersOnceMeans(infos);
  }

  /** One turn of the outer loop: the read of the buffer that holds the last replica of `key`. */
  method CompactOne(requested: Tensors, places: map<Place, Tensors>, target: TransferMeta, left: TransferMeta,
                    ghost before: set<Place>, key: ShardedKey)
    returns (info: CompactInfo, left': TransferMeta)
    requires PlacesFit(places, target) && target.Keys == requested.Keys && key in left
    requires forall k | k in target :: target[k] != []
    requires forall k | k in left :: k in target && left[k] == target[k]
    requires NotInRead(left, before)
    ensures InfoFits(info, requested, target) && info.place !in before
    ensures info.tensors.Keys <= left.Keys && left'.Keys == left.Keys - info.tensors.Keys
    ensures forall k | k in left' :: k in left && k != key && left'[k] == target[k]
    ensures NotInRead(left', before + {info.place})
  {
    var replica := Last(left[key]);
    var place := PlaceOf(replica);
    assert replica in target[key];
    assert key in places[place];
    var tensors;
    left', tensors := TakePlace(places[place], left, key, requested[key]);
    info := CompactInfo(place, replica.size, tensors);
    assert MadeFor(info, key, requested, target);
    TakenIsDone(places, target, left, before, key, left');
  }

  lemma TakenIsDone(places: map<Place, Tensors>, target: TransferMeta, left: TransferMeta, before: set<Place>,
                    key: ShardedKey, left': TransferMeta)
    requires PlacesFit(places, target) && key in left
    requires left[key] != [] && forall k | k in left :: k in target && left[k] == target[k]
    requires PlaceOf(Last(left[key])) in places
    requires forall k | k in left' :: k in left && k !in places[PlaceOf(Last(left[key]))] && left'[k] == left[k]
    requires NotInRead(left, before)
    ensures PlaceOf(Last(left[key])) !in before
    ensures NotInRead(left', before + {PlaceOf(Last(left[key]))})
  {
    assert Last(left[key]) in left[key];
    forall k, r | k in left' && r in left'[k]
      ensures PlaceOf(r) !in before + {PlaceOf(Last(left[key]))}
    {
      assert r in left[k] && r in target[k];
    }
  }

  /** GetCompactTensorInfos after the wait: it throws exactly when some requested shard has no
      metadata, and otherwise partitions the request. */
  method GetCompactTensorInfos(meta: TransferMeta, requested: Tensors) returns (r: Outcome)
    requires forall k | k in meta && k in requested :: meta[k] != []
    ensures r.SizeMismatch? <==> !(requested.Keys <= meta.Keys)
    ensures r.Compacted? ==> Partition(r.infos, requested, meta)
  {
    var target, places := CollectPlaces(meta, requested);
    SubsetCount(target.Keys, requested.Keys);
    if |target| != |requested| {
      assert target.Keys != requested.Keys;
      return SizeMismatch;
    }
    assert target.Keys == requested.Keys;
    var infos := CompactTensorInfos(requested, places, target);
    AllSameFit(infos, requested, target, meta);
    return Compacted(infos);
  }

  lemma {:induction false} AllSameFit(infos: seq<CompactInfo>, requested: Tensors, target: TransferMeta, meta: TransferMeta)
    requires AllFit(infos, requested, target)
    requires forall k | k in target :: k in meta && target[k] == meta[k]
    ensures AllFit(infos, requested, meta)
  {
    if infos != [] {
      AllSameFit(infos[..|infos| - 1], requested, target, meta);
      SameFit(infos[|infos| - 1], requested, target, meta);
    }
  }

  lemma SameFit(info: CompactInfo, requested: Tensors, target: TransferMeta, meta: TransferMeta)
    requires InfoFits(info, requested, target)
    requires forall k | k in target :: k in meta && target[k] == meta[k]
    ensures InfoFits(info, requested, meta)
  {
    var first :| MadeFor(info, first, requested, target);
    forall k | k in info.tensors && k != first
      ensures LivesFirstAt(meta, k, info.place, info.tensors[k])
    {
      assert LivesFirstAt(target, k, info.place, info.tensors[k]);
    }
    assert MadeFor(info, first, requested, meta);
  }

  /** When the request carries the metadata that GetAllTensorShards hands out, everything in a read is
      the tensor of a replica in the read's buffer. */
  lemma ReadLivesAt(infos: seq<CompactInfo>, requested: Tensors, meta: TransferMeta, i: nat, k: ShardedKey)
    requires Partition(infos, requested, meta) && i < |infos| && k in infos[i].tensors
    requires forall key | key in requested && key in meta && meta[key] != [] :: requested[key] == Last(meta[key]).tensor
    ensures LivesAt(meta, k, infos[i].place, infos[i].tensors[k])
  {
    AllFitMeans(infos, requested, meta, i);
    var first :| MadeFor(infos[i], first, requested, meta);
    assert Last(meta[first]) in meta[first];
    if k != first {
      assert LivesFirstAt(meta, k, infos[i].place, infos[i].tensors[k]);
      var j :| FirstAt(meta[k], j, infos[i].place) && meta[k][j].tensor == infos[i].tensors[k];
      assert meta[k][j] in meta[k];
    }
  }

  /** A whole buffer read into the local cache shows each of its shards: the view at the shard's
      storage offset holds what the replica holds. */
  lemma CompactReadHolds(r: Replica, remote: Remote, key: ShardedKey, local: seq<Byte>, G: seq<int> -> seq<Byte>)
    requires ReplicaHolds(r, remote, key, G) && r.tensor.storageOffset >= 0
    requires |local| >= r.size && local[..r.size] == remote[PlaceOf(r)]
    ensures StagedHolds(local, Staged(r.tensor.storageOffset * r.tensor.dtype.itemSize, r.tensor), key.globalOffset, G)
  {
    var w, at := r.tensor.dtype.itemSize, r.tensor.storageOffset * r.tensor.dtype.itemSize;
    var buffer := remote[PlaceOf(r)];
    assert local[0..r.size] == local[..r.size] && buffer[0..r.size] == buffer;
    forall x | InShape(x, r.tensor.size)
      ensures View(local, Staged(at, r.tensor), x) == G(Plus(key.globalOffset, x))
    {
      var d := Dot(r.tensor.stride, x);
      var e := ElementIndex(r.tensor, x);
      assert e * w == at + d * w;
      SameSlice(local, 0, buffer, 0, r.size, e * w, w);
    }
  }
}
