/** The read of all small targets of a request: their shards are gathered without pruning, compacted into
    whole-buffer reads, and copied out of each buffer into the targets. */
module SmallReads {
  import opened Boxes
  import opened Shards
  import opened ReadPath
  import opened Compaction

  /** The targets' elements, by key. */
  type Contents = map<ShardedKey, map<seq<int>, seq<Byte>>>

  /** The global tensors, by name. */
  type Globals = string -> seq<int> -> seq<Byte>

  type Targets = map<ShardedKey, TargetTensor>

  /** A shard, and a target that it holds a part of. */
  type Want = (ShardedKey, ShardedKey)

  // ---------- gathering ----------

  /** A target whose key and size agree, with at least one dimension. */
  ghost predicate GoodTarget(meta: TransferMeta, key: ShardedKey, t: TensorMeta) {
    && GoodShards(meta, key.key)
    && |key.globalOffset| == |key.globalShape| && NonNegative(key.globalOffset) && NonNegative(t.size)
  }

  ghost predicate WantFits(want: Want, meta: TransferMeta, shards: Tensors, goals: Tensors) {
    && want.0 in shards && want.1 in goals && want.0.key == want.1.key
    && |want.0.globalOffset| == |shards[want.0].size| == |want.1.globalOffset| == |goals[want.1].size|
  }

  /** Every coordinate of the target lies in a shard that is wanted for it. */
  ghost predicate Reached(key: ShardedKey, t: TensorMeta, shards: Tensors, wants: set<Want>) {
    && |key.globalOffset| == |t.size|
    && forall g | Contains(Box(key.globalOffset, t.size), g) ::
      exists raw :: (raw, key) in wants && raw in shards && Contains(Box(raw.globalOffset, shards[raw].size), g)
  }

  function Names(goals: Tensors): set<string> {
    set key | key in goals :: key.key
  }

  /** The shard holds a part of the target. */
  ghost predicate Wanted(meta: TransferMeta, goals: Tensors, raw: ShardedKey, key: ShardedKey) {
    && raw in meta && meta[raw] != [] && key in goals && raw.key == key.key
    && Meets(Shard(raw, Last(meta[raw]).tensor), Shard(key, goals[key]))
  }

  /** Nothing else is gathered: exactly the shards that hold a part of one of these targets. */
  ghost predicate OnlyWanted(meta: TransferMeta, goals: Tensors, done: set<ShardedKey>, shards: Tensors, wants: set<Want>) {
    && (forall raw, key :: (raw, key) in wants <==> key in done && Wanted(meta, goals, raw, key))
    && (forall raw :: raw in shards <==> exists key :: (raw, key) in wants)
  }

  /** What gathering has collected for the targets in `done`, and that it is no more than needed. */
  ghost predicate Gathered(meta: TransferMeta, goals: Tensors, done: set<ShardedKey>, shards: Tensors, wants: set<Want>) {
    Collected(meta, goals, done, shards, wants) && OnlyWanted(meta, goals, done, shards, wants)
  }

  ghost predicate Collected(meta: TransferMeta, goals: Tensors, done: set<ShardedKey>, shards: Tensors, wants: set<Want>) {
    && (forall raw | raw in shards :: raw in meta && meta[raw] != [] && shards[raw] == Last(meta[raw]).tensor)
    && (forall raw | raw in shards :: raw.key in Names(goals))
    && (forall want | want in wants :: WantFits(want, meta, shards, goals))
    && (forall key | key in done && key in goals :: Reached(key, goals[key], shards, wants))
  }

  /** The entries of one target's list are added. */
  function AddShards(shards: Tensors, list: seq<RemoteShard>): Tensors {
    if list == [] then shards else
      var more, last := AddShards(shards, list[..|list| - 1]), list[|list| - 1];
      if last.raw in more then more else more[last.raw := last.tensor]
  }

  function AddWants(wants: set<Want>, list: seq<RemoteShard>, key: ShardedKey): set<Want> {
    wants + set i | 0 <= i < |list| :: (list[i].raw, key)
  }

  lemma {:induction false} AddedShards(meta: TransferMeta, shards: Tensors, list: seq<RemoteShard>)
    requires forall raw | raw in shards :: raw in meta && meta[raw] != [] && shards[raw] == Last(meta[raw]).tensor
    requires forall k | 0 <= k < |list| ::
      list[k].raw in meta && meta[list[k].raw] != [] && list[k].tensor == Last(meta[list[k].raw]).tensor
    ensures forall raw | raw in AddShards(shards, list) ::
      raw in meta && meta[raw] != [] && AddShards(shards, list)[raw] == Last(meta[raw]).tensor
    ensures forall raw | raw in shards :: raw in AddShards(shards, list) && AddShards(shards, list)[raw] == shards[raw]
    ensures forall k | 0 <= k < |list| :: list[k].raw in AddShards(shards, list)
  {
    if list != [] {
      AddedShards(meta, shards, list[..|list| - 1]);
    }
  }

  /** The shards that exist do not serve the target. */
  ghost predicate Unserved(meta: TransferMeta, key: ShardedKey, t: TensorMeta) {
    GoodShards(meta, key.key) && !CoveredRequest(meta, Shard(key, t))
  }

  method Gather(meta: TransferMeta, goals: Tensors) returns (ok: bool, shards: Tensors, wants: set<Want>)
    requires forall key | key in goals :: GoodTarget(meta, key, goals[key])
    ensures ok ==> Gathered(meta, goals, goals.Keys, shards, wants)
    ensures !ok ==> exists key :: key in goals && Unserved(meta, key, goals[key])
  {
    shards, wants := map[], {};
    var rest := goals.Keys;
    while rest != {}
      invariant rest <= goals.Keys && Gathered(meta, goals, goals.Keys - rest, shards, wants)
      decreases rest
    {
      var key :| key in rest;
      var v, list, candidates := GetRemoteTensorShards(meta, Shard(key, goals[key]), false);
      if !v.Valid? {
        NotCoveredRequest(meta, Shard(key, goals[key]), candidates);
        assert Unserved(meta, key, goals[key]);
        return false, map[], {};
      }
      GatherOne(meta, goals, goals.Keys - rest, shards, wants, key, list, candidates);
      OnlyWantedNext(meta, goals, goals.Keys - rest, shards, wants, key, list, candidates);
      shards, wants := AddShards(shards, list), AddWants(wants, list, key);
      assert goals.Keys - rest + {key} == goals.Keys - (rest - {key});
      rest := rest - {key};
    }
    assert goals.Keys - rest == goals.Keys;
    return true, shards, wants;
  }

  lemma NotCoveredRequest(meta: TransferMeta, target: Shard, candidates: seq<Shard>)
    requires GoodShards(meta, target.key.key) && Sourced(candidates, meta, target.key.key)
    requires forall key | key in meta && key.key == target.key.key :: Shard(key, Last(meta[key]).tensor) in candidates
    requires !(Positive(target.tensor.size) && candidates != [] && ShardsOfSame(candidates, target) && Covers(candidates, target)
               && forall i | 0 <= i < |candidates| :: candidates[i].tensor.dtype == target.tensor.dtype)
    ensures !CoveredRequest(meta, target)
  {
    if CoveredRequest(meta, target) {
      RequestCandidates(meta, target, candidates);
    }
  }

  /** What the list of one target says about its entries. */
  lemma ListFits(meta: TransferMeta, key: ShardedKey, t: TensorMeta, list: seq<RemoteShard>, candidates: seq<Shard>, k: nat)
    requires GoodShards(meta, key.key) && Sourced(candidates, meta, key.key)
    requires FetchList(list, candidates, Shard(key, t), false) && k < |list|
    ensures list[k].raw.key == key.key && list[k].raw in meta
    ensures |list[k].raw.globalOffset| == |list[k].tensor.size| == |key.globalOffset| == |t.size|
  {
    assert FromSome(list[k], candidates, Shard(key, t), false);
    var i :| 0 <= i < |candidates| && MadeFrom(list[k], candidates[i], Shard(key, t), false);
  }

  lemma GatherOne(meta: TransferMeta, goals: Tensors, done: set<ShardedKey>, shards: Tensors, wants: set<Want>,
                  key: ShardedKey, list: seq<RemoteShard>, candidates: seq<Shard>)
    requires Collected(meta, goals, done, shards, wants) && key in goals && GoodTarget(meta, key, goals[key])
    requires Sourced(candidates, meta, key.key) && FetchList(list, candidates, Shard(key, goals[key]), false)
    requires |key.globalOffset| == |goals[key].size|
    requires forall k | 0 <= k < |list| ::
      list[k].raw in meta && list[k].adjusted == list[k].raw && list[k].tensor == Last(meta[list[k].raw]).tensor
    ensures Collected(meta, goals, done + {key}, AddShards(shards, list), AddWants(wants, list, key))
  {
    AddedShards(meta, shards, list);
    var shards', wants' := AddShards(shards, list), AddWants(wants, list, key);
    forall k | 0 <= k < |list|
      ensures (list[k].raw, key) in wants' && list[k].raw in shards' && shards'[list[k].raw] == list[k].tensor
    {
    }
    forall raw | raw in shards'
      ensures raw.key in Names(goals)
    {
      if raw !in shards {
        AddedShard(shards, list, raw);
        var k :| 0 <= k < |list| && raw == list[k].raw;
        ListFits(meta, key, goals[key], list, candidates, k);
      }
    }
    forall want | want in wants'
      ensures WantFits(want, meta, shards', goals)
    {
      if want !in wants {
        var k :| 0 <= k < |list| && want == (list[k].raw, key);
        ListFits(meta, key, goals[key], list, candidates, k);
      }
    }
    forall key' | key' in done + {key} && key' in goals
      ensures Reached(key', goals[key'], shards', wants')
    {
      if key' in done {
        ReachedStays(key', goals[key'], shards, wants, shards', wants');
      } else {
        ListReaches(key, goals[key], list, shards', wants');
      }
    }
  }

  /** The list of a target has exactly the shards that hold a part of it. */
  lemma ListIsWanted(meta: TransferMeta, goals: Tensors, key: ShardedKey, list: seq<RemoteShard>, candidates: seq<Shard>,
                     raw: ShardedKey)
    requires key in goals && GoodTarget(meta, key, goals[key])
    requires Sourced(candidates, meta, key.key) && FetchList(list, candidates, Shard(key, goals[key]), false)
    requires forall raw | raw in meta && raw.key == key.key :: Shard(raw, Last(meta[raw]).tensor) in candidates
    ensures Wanted(meta, goals, raw, key) <==> Fetches(list, raw)
  {
    var target := Shard(key, goals[key]);
    if Wanted(meta, goals, raw, key) {
      var i :| 0 <= i < |candidates| && candidates[i] == Shard(raw, Last(meta[raw]).tensor);
      assert Fetches(list, candidates[i].key);
    }
    if k :| 0 <= k < |list| && list[k].raw == raw {
      assert FromSome(list[k], candidates, target, false);
      var i :| 0 <= i < |candidates| && MadeFrom(list[k], candidates[i], target, false);
      assert candidates[i] == Shard(raw, Last(meta[raw]).tensor);
    }
  }

  lemma OnlyWantedNext(meta: TransferMeta, goals: Tensors, done: set<ShardedKey>, shards: Tensors, wants: set<Want>,
                       key: ShardedKey, list: seq<RemoteShard>, candidates: seq<Shard>)
    requires OnlyWanted(meta, goals, done, shards, wants) && key in goals && key !in done
    requires GoodTarget(meta, key, goals[key])
    requires Sourced(candidates, meta, key.key) && FetchList(list, candidates, Shard(key, goals[key]), false)
    requires forall raw | raw in meta && raw.key == key.key :: Shard(raw, Last(meta[raw]).tensor) in candidates
    ensures OnlyWanted(meta, goals, done + {key}, AddShards(shards, list), AddWants(wants, list, key))
  {
    var shards', wants' := AddShards(shards, list), AddWants(wants, list, key);
    forall raw, key'
      ensures (raw, key') in wants' <==> key' in done + {key} && Wanted(meta, goals, raw, key')
    {
      ListIsWanted(meta, goals, key, list, candidates, raw);
      AddedWant(wants, list, key, raw, key');
    }
    forall raw
      ensures raw in shards' <==> exists key' :: (raw, key') in wants'
    {
      AddedShard(shards, list, raw);
      if raw in shards' {
        if k :| 0 <= k < |list| && list[k].raw == raw {
          AddedWant(wants, list, key, raw, key);
        } else {
          var key' :| (raw, key') in wants;
          assert (raw, key') in wants';
        }
      }
      if key' :| (raw, key') in wants' {
        AddedWant(wants, list, key, raw, key');
      }
    }
  }

  lemma AddedWant(wants: set<Want>, list: seq<RemoteShard>, key: ShardedKey, raw: ShardedKey, key': ShardedKey)
    ensures (raw, key') in AddWants(wants, list, key) <==> (raw, key') in wants || (key' == key && Fetches(list, raw))
  {
    if k :| 0 <= k < |list| && list[k].raw == raw {
      assert (list[k].raw, key) in AddWants(wants, list, key);
    }
  }

  lemma {:induction false} AddedShard(shards: Tensors, list: seq<RemoteShard>, raw: ShardedKey)
    ensures raw in AddShards(shards, list) <==> raw in shards || Fetches(list, raw)
  {
    if list != [] {
      var front, n := list[..|list| - 1], |list| - 1;
      AddedShard(shards, front, raw);
      if k :| 0 <= k < |front| && front[k].raw == raw {
        assert list[k].raw == raw;
      }
      if k :| 0 <= k < |list| && list[k].raw == raw && k < n {
        assert front[k].raw == raw;
      }
    }
  }

  lemma ReachedStays(key: ShardedKey, t: TensorMeta, shards: Tensors, wants: set<Want>, shards': Tensors, wants': set<Want>)
    requires Reached(key, t, shards, wants) && wants <= wants'
    requires forall raw | raw in shards :: raw in shards' && shards'[raw] == shards[raw]
    ensures Reached(key, t, shards', wants')
  {
    forall g | Contains(Box(key.globalOffset, t.size), g)
      ensures exists raw :: (raw, key) in wants' && raw in shards' && Contains(Box(raw.globalOffset, shards'[raw].size), g)
    {
      var raw :| (raw, key) in wants && raw in shards && Contains(Box(raw.globalOffset, shards[raw].size), g);
      assert (raw, key) in wants';
    }
  }

  lemma ListReaches(key: ShardedKey, t: TensorMeta, list: seq<RemoteShard>, shards: Tensors, wants: set<Want>)
    requires forall k | 0 <= k < |list| ::
      && list[k].adjusted == list[k].raw && (list[k].raw, key) in wants
      && list[k].raw in shards && shards[list[k].raw] == list[k].tensor
    requires forall g | Contains(BoxOf(Shard(key, t)), g) ::
      exists k | 0 <= k < |list| :: Contains(Box(list[k].adjusted.globalOffset, list[k].tensor.size), g)
    requires |key.globalOffset| == |t.size|
    ensures Reached(key, t, shards, wants)
  {
    assert BoxOf(Shard(key, t)) == Box(key.globalOffset, t.size);
    forall g | Contains(Box(key.globalOffset, t.size), g)
      ensures exists raw :: (raw, key) in wants && raw in shards && Contains(Box(raw.globalOffset, shards[raw].size), g)
    {
      var k :| 0 <= k < |list| && Contains(Box(list[k].adjusted.globalOffset, list[k].tensor.size), g);
      assert (list[k].raw, key) in wants;
    }
  }

  // ---------- reading and copying ----------

  datatype RawResult = RawReceived | CacheTooSmall | RawFailed

  /** RawGet after its waits: the whole buffer goes to the start of the local cache. */
  method RawGet(remote: Remote, place: Place, size: nat, cache: array<Byte>, up: bool) returns (r: RawResult)
    requires place in remote && |remote[place]| == size
    modifies cache
    ensures r.CacheTooSmall? <==> cache.Length < size
    ensures r.RawReceived? <==> up && size <= cache.Length
    ensures r.RawReceived? ==> cache[..size] == remote[place]
    ensures !r.RawReceived? ==> cache[..] == old(cache[..])
  {
    if cache.Length < size {
      return CacheTooSmall;
    }
    if !up {
      return RawFailed;
    }
    var buffer := remote[place];
    forall i | 0 <= i < size {
      cache[i] := buffer[i];
    }
    assert cache[..size] == buffer;
    return RawReceived;
  }

  /** All replicas of the gathered shards hold their tensor and have the shard's size. */
  ghost predicate ReplicasHold(meta: TransferMeta, remote: Remote, shards: Tensors, G: Globals) {
    forall raw, r | raw in shards && raw in meta && r in meta[raw] ::
      && ReplicaHolds(r, remote, raw, G(raw.key)) && r.tensor.storageOffset >= 0
      && r.tensor.size == shards[raw].size
  }

  ghost function Snapshot(targets: Targets): Contents
    reads targets.Values
  {
    map key | key in targets :: targets[key].elements
  }

  /** The targets are different tensors of the sizes asked for. */
  ghost predicate TargetsFit(targets: Targets, goals: Tensors) {
    && targets.Keys == goals.Keys
    && (forall key | key in targets :: targets[key].size == goals[key].size)
    && (forall j, k | j in targets && k in targets && j != k :: targets[j] != targets[k])
  }

  ghost predicate AllValid(targets: Targets)
    reads targets.Values
  {
    forall key | key in targets :: targets[key].Valid()
  }

  /** The wants in `done` are served: what their shard holds of their target is the global tensor's. */
  ghost predicate Served(snap: Contents, goals: Tensors, shards: Tensors, done: set<Want>, G: Globals) {
    forall want | want in done :: WantServed(snap, goals, shards, want, G)
  }

  ghost predicate WantServed(snap: Contents, goals: Tensors, shards: Tensors, want: Want, G: Globals) {
    && want.0 in shards && want.1 in goals && want.1 in snap
    && |want.1.globalOffset| == |goals[want.1].size|
    && forall t | InShape(t, goals[want.1].size)
                  && Contains(Box(want.0.globalOffset, shards[want.0].size), Plus(want.1.globalOffset, t)) ::
         t in snap[want.1] && snap[want.1][t] == G(want.1.key)(Plus(want.1.globalOffset, t))
  }

  /** Every element is as before or the global tensor's. */
  ghost predicate OnlyRight(was: map<seq<int>, seq<Byte>>, now: map<seq<int>, seq<Byte>>, key: ShardedKey, size: seq<int>, G: Globals)
    requires |key.globalOffset| == |size|
  {
    forall t | InShape(t, size) && t in was :: t in now && (now[t] == was[t] || now[t] == G(key.key)(Plus(key.globalOffset, t)))
  }

  lemma ServedStays(was: Contents, now: Contents, goals: Tensors, shards: Tensors, done: set<Want>, key: ShardedKey, G: Globals)
    requires Served(was, goals, shards, done, G)
    requires key in goals && key in was && |key.globalOffset| == |goals[key].size|
    requires now.Keys == was.Keys && forall k | k in was && k != key :: now[k] == was[k]
    requires OnlyRight(was[key], now[key], key, goals[key].size, G)
    ensures Served(now, goals, shards, done, G)
  {
    forall want | want in done
      ensures WantServed(now, goals, shards, want, G)
    {
      assert WantServed(was, goals, shards, want, G);
    }
  }

  /** One copy into one target. */
  lemma CopyServes(was: map<seq<int>, seq<Byte>>, now: map<seq<int>, seq<Byte>>, raw: ShardedKey, staged: Staged, bytes: seq<Byte>,
                   key: ShardedKey, size: seq<int>, G: Globals)
    requires |raw.globalOffset| == |staged.tensor.size| == |staged.tensor.stride| == |key.globalOffset| == |size|
    requires raw.key == key.key && StagedHolds(bytes, staged, raw.globalOffset, G(raw.key))
    requires forall t | InShape(t, size) ::
      && t in was && t in now
      && now[t] == if Contains(Box(raw.globalOffset, staged.tensor.size), Plus(key.globalOffset, t))
                   then View(bytes, staged, Minus(Plus(key.globalOffset, t), raw.globalOffset)) else was[t]
    ensures OnlyRight(was, now, key, size, G)
    ensures forall t | InShape(t, size) && Contains(Box(raw.globalOffset, staged.tensor.size), Plus(key.globalOffset, t)) ::
      t in now && now[t] == G(key.key)(Plus(key.globalOffset, t))
  {
    forall t | InShape(t, size) && Contains(Box(raw.globalOffset, staged.tensor.size), Plus(key.globalOffset, t))
      ensures now[t] == G(key.key)(Plus(key.globalOffset, t))
    {
      ViewIsGlobal(raw, staged, bytes, Plus(key.globalOffset, t), G(raw.key));
    }
  }

  lemma ViewIsGlobal(raw: ShardedKey, staged: Staged, bytes: seq<Byte>, c: seq<int>, g: seq<int> -> seq<Byte>)
    requires StagedHolds(bytes, staged, raw.globalOffset, g)
    requires Contains(Box(raw.globalOffset, staged.tensor.size), c)
    ensures |c| == |raw.globalOffset| && View(bytes, staged, Minus(c, raw.globalOffset)) == g(c)
  {
    var part, x := Box(raw.globalOffset, staged.tensor.size), Minus(c, raw.globalOffset);
    forall i | 0 <= i < |x|
      ensures 0 <= x[i] < part.size[i]
    {
      assert part.offset[i] <= c[i] < part.offset[i] + part.size[i];
    }
    assert Plus(raw.globalOffset, x) == c;
  }

  /** The copies of one shard: into every target that wants it, in any order. */
  method CopyShard(raw: ShardedKey, staged: Staged, bytes: seq<Byte>, wants: set<Want>, targets: Targets,
                   ghost goals: Tensors, ghost shards: Tensors, ghost done: set<Want>, ghost G: Globals)
    requires TargetsFit(targets, goals) && AllValid(targets) && raw in shards
    requires forall want | want in wants ::
      && want.0 == raw && want.1 in goals && want.1.key == raw.key
      && |want.1.globalOffset| == |goals[want.1].size| == |raw.globalOffset|
    requires staged.tensor.size == shards[raw].size && |staged.tensor.stride| == |staged.tensor.size| == |raw.globalOffset|
    requires StagedHolds(bytes, staged, raw.globalOffset, G(raw.key))
    requires Served(Snapshot(targets), goals, shards, done, G)
    modifies targets.Values
    ensures AllValid(targets) && Served(Snapshot(targets), goals, shards, done + wants, G)
  {
    var rest := wants;
    ghost var served := done;
    while rest != {}
      invariant rest <= wants && AllValid(targets)
      invariant Served(Snapshot(targets), goals, shards, served, G) && served == done + (wants - rest)
      decreases rest
    {
      var want :| want in rest;
      CopyWant(want, staged, bytes, targets, goals, shards, served, G);
      served := served + {want};
      rest := rest - {want};
    }
    assert done + (wants - rest) == done + wants;
  }

  method CopyWant(want: Want, staged: Staged, bytes: seq<Byte>, targets: Targets,
                  ghost goals: Tensors, ghost shards: Tensors, ghost done: set<Want>, ghost G: Globals)
    requires TargetsFit(targets, goals) && AllValid(targets) && want.0 in shards && want.1 in goals && want.1.key == want.0.key
    requires |want.1.globalOffset| == |goals[want.1].size| == |want.0.globalOffset|
    requires staged.tensor.size == shards[want.0].size && |staged.tensor.stride| == |staged.tensor.size| == |want.0.globalOffset|
    requires StagedHolds(bytes, staged, want.0.globalOffset, G(want.0.key))
    requires Served(Snapshot(targets), goals, shards, done, G)
    modifies targets.Values
    ensures AllValid(targets) && Served(Snapshot(targets), goals, shards, done + {want}, G)
  {
    var raw, key := want.0, want.1;
    var target := targets[key];
    ghost var was := Snapshot(targets);
    var copied := target.CopyFrom(raw.globalOffset, staged, bytes, key.globalOffset);
    ghost var now := Snapshot(targets);
    CopyServes(was[key], now[key], raw, staged, bytes, key, goals[key].size, G);
    ServedStays(was, now, goals, shards, done, key, G);
    assert WantServed(now, goals, shards, want, G);
  }

  function WantsOf(wants: set<Want>, raw: ShardedKey): set<Want> {
    set want | want in wants && want.0 == raw
  }

  function WantsIn(wants: set<Want>, tensors: Tensors): set<Want> {
    set want | want in wants && want.0 in tensors
  }

  /** The buffer at `place` is in `bytes`. */
  ghost predicate BufferIn(bytes: seq<Byte>, remote: Remote, place: Place) {
    place in remote && |remote[place]| <= |bytes| && bytes[..|remote[place]|] == remote[place]
  }

  function At(t: TensorMeta): int { t.storageOffset * t.dtype.itemSize }

  /** Shard `raw`, seen through tensor t of a replica, can be copied out of the bytes to all that want it. */
  ghost predicate ShardReady(raw: ShardedKey, t: TensorMeta, bytes: seq<Byte>, wants: set<Want>, goals: Tensors, shards: Tensors, G: Globals) {
    && raw in shards && At(t) >= 0 && t.size == shards[raw].size && |t.stride| == |t.size| == |raw.globalOffset|
    && StagedHolds(bytes, Staged(At(t), t), raw.globalOffset, G(raw.key))
    && forall want | want in WantsOf(wants, raw) ::
         && want.0 == raw && want.1 in goals && want.1.key == raw.key
         && |want.1.globalOffset| == |goals[want.1].size| == |raw.globalOffset|
  }

  /** The read has its buffer's size, and all its shards can be copied out of the buffer. */
  ghost predicate InfoReady(info: CompactInfo, remote: Remote, wants: set<Want>, goals: Tensors, shards: Tensors, G: Globals) {
    && info.place in remote && |remote[info.place]| == info.size
    && forall raw, bytes | raw in info.tensors && BufferIn(bytes, remote, info.place) ::
         ShardReady(raw, info.tensors[raw], bytes, wants, goals, shards, G)
  }

  /** What the buffer of a read shows of one of its shards. */
  lemma ShardShown(infos: seq<CompactInfo>, meta: TransferMeta, remote: Remote, shards: Tensors, G: Globals, i: nat, raw: ShardedKey,
                   bytes: seq<Byte>)
    requires Partition(infos, shards, meta) && i < |infos| && raw in infos[i].tensors
    requires forall k | k in shards :: k in meta && meta[k] != [] && shards[k] == Last(meta[k]).tensor
    requires ReplicasHold(meta, remote, shards, G) && BufferIn(bytes, remote, infos[i].place)
    ensures raw in shards
    ensures var t := infos[i].tensors[raw];
            && At(t) >= 0 && t.size == shards[raw].size && |t.stride| == |t.size| == |raw.globalOffset|
            && StagedHolds(bytes, Staged(At(t), t), raw.globalOffset, G(raw.key))
  {
    ReadLivesAt(infos, shards, meta, i, raw);
    assert raw in infos[i].tensors.Keys && infos[i].tensors.Keys <= shards.Keys;
    var r :| r in meta[raw] && PlaceOf(r) == infos[i].place && r.tensor == infos[i].tensors[raw];
    assert ReplicaHolds(r, remote, raw, G(raw.key));
    MulMono(0, r.tensor.storageOffset, r.tensor.dtype.itemSize);
    CompactReadHolds(r, remote, raw, bytes, G(raw.key));
  }

  /** The buffer of a read is as large as the read says. */
  lemma BufferSize(infos: seq<CompactInfo>, meta: TransferMeta, remote: Remote, shards: Tensors, G: Globals, i: nat)
    requires Partition(infos, shards, meta) && i < |infos|
    requires ReplicasHold(meta, remote, shards, G)
    ensures infos[i].place in remote && |remote[infos[i].place]| == infos[i].size
  {
    AllFitMeans(infos, shards, meta, i);
    var first :| MadeFor(infos[i], first, shards, meta);
    assert Last(meta[first]) in meta[first];
    assert ReplicaHolds(Last(meta[first]), remote, first, G(first.key));
  }

  lemma WantsOfFit(meta: TransferMeta, goals: Tensors, shards: Tensors, wants: set<Want>, raw: ShardedKey)
    requires Gathered(meta, goals, goals.Keys, shards, wants) && raw in shards
    ensures forall want | want in WantsOf(wants, raw) ::
      && want.0 == raw && want.1 in goals && want.1.key == raw.key
      && |want.1.globalOffset| == |goals[want.1].size| == |raw.globalOffset|
  {
    forall want | want in WantsOf(wants, raw)
      ensures WantFits(want, meta, shards, goals)
    {
    }
  }

  lemma ReadsAreReady(infos: seq<CompactInfo>, i: nat, meta: TransferMeta, remote: Remote, goals: Tensors, shards: Tensors,
                      wants: set<Want>, G: Globals)
    requires Gathered(meta, goals, goals.Keys, shards, wants)
    requires Partition(infos, shards, meta) && i < |infos| && ReplicasHold(meta, remote, shards, G)
    ensures InfoReady(infos[i], remote, wants, goals, shards, G)
  {
    BufferSize(infos, meta, remote, shards, G, i);
    forall raw, bytes | raw in infos[i].tensors && BufferIn(bytes, remote, infos[i].place)
      ensures ShardReady(raw, infos[i].tensors[raw], bytes, wants, goals, shards, G)
    {
      ShardShown(infos, meta, remote, shards, G, i, raw, bytes);
      WantsOfFit(meta, goals, shards, wants, raw);
    }
  }

  /** All shards of a read, copied out of the buffer in any order. */
  method CopyBuffer(info: CompactInfo, bytes: seq<Byte>, wants: set<Want>, targets: Targets,
                    ghost goals: Tensors, ghost shards: Tensors, ghost done: set<Want>, ghost G: Globals)
    requires TargetsFit(targets, goals) && AllValid(targets) && Served(Snapshot(targets), goals, shards, done, G)
    requires forall raw | raw in info.tensors :: ShardReady(raw, info.tensors[raw], bytes, wants, goals, shards, G)
    modifies targets.Values
    ensures AllValid(targets) && Served(Snapshot(targets), goals, shards, done + WantsIn(wants, info.tensors), G)
  {
    var rest := info.tensors.Keys;
    ghost var served := done;
    while rest != {}
      invariant rest <= info.tensors.Keys && AllValid(targets)
      invariant Served(Snapshot(targets), goals, shards, served, G)
      invariant done <= served && forall want | want in WantsIn(wants, info.tensors) && want.0 !in rest :: want in served
      decreases rest
    {
      var raw :| raw in rest;
      var t := info.tensors[raw];
      assert ShardReady(raw, t, bytes, wants, goals, shards, G);
      CopyShard(raw, Staged(At(t), t), bytes, WantsOf(wants, raw), targets, goals, shards, served, G);
      served := served + WantsOf(wants, raw);
      rest := rest - {raw};
    }
    ServedFewer(Snapshot(targets), goals, shards, served, done + WantsIn(wants, info.tensors), G);
  }

  lemma ServedFewer(snap: Contents, goals: Tensors, shards: Tensors, done: set<Want>, fewer: set<Want>, G: Globals)
    requires Served(snap, goals, shards, done, G) && fewer <= done
    ensures Served(snap, goals, shards, fewer, G)
  {
  }

  /** One read, as a thread of the pool performs it: receive the buffer and copy its shards. */
  method ReadInfo(info: CompactInfo, remote: Remote, cache: array<Byte>, up: bool, wants: set<Want>, targets: Targets,
                  ghost goals: Tensors, ghost shards: Tensors, ghost done: set<Want>, ghost G: Globals)
    returns (r: RawResult)
    requires TargetsFit(targets, goals) && AllValid(targets) && Served(Snapshot(targets), goals, shards, done, G)
    requires InfoReady(info, remote, wants, goals, shards, G)
    modifies cache, targets.Values
    ensures AllValid(targets)
    ensures r.RawReceived? <==> up && info.size <= cache.Length
    ensures r.RawReceived? ==> Served(Snapshot(targets), goals, shards, done + WantsIn(wants, info.tensors), G)
  {
    r := RawGet(remote, info.place, info.size, cache, up);
    if !r.RawReceived? {
      return;
    }
    assert cache[..][..info.size] == cache[..info.size];
    assert BufferIn(cache[..], remote, info.place);
    CopyBuffer(info, cache[..], wants, targets, goals, shards, done, G);
  }

  /** All reads. */
  method ReadAll(infos: seq<CompactInfo>, remote: Remote, cache: array<Byte>, up: nat -> bool, wants: set<Want>, targets: Targets,
                 ghost goals: Tensors, ghost shards: Tensors, ghost G: Globals) returns (n: nat)
    requires TargetsFit(targets, goals) && AllValid(targets)
    requires forall i | 0 <= i < |infos| :: InfoReady(infos[i], remote, wants, goals, shards, G)
    modifies cache, targets.Values
    ensures AllValid(targets) && n <= |infos|
    ensures forall i | 0 <= i < n :: up(i) && infos[i].size <= cache.Length
    ensures n < |infos| ==> !(up(n) && infos[n].size <= cache.Length)
    ensures n == |infos| ==> forall i | 0 <= i < |infos| ::
      Served(Snapshot(targets), goals, shards, WantsIn(wants, infos[i].tensors), G)
  {
    ghost var done: set<Want> := {};
    for i := 0 to |infos|
      invariant AllValid(targets) && Served(Snapshot(targets), goals, shards, done, G)
      invariant forall k | 0 <= k < i :: up(k) && infos[k].size <= cache.Length
      invariant forall k | 0 <= k < i :: WantsIn(wants, infos[k].tensors) <= done
    {
      var one := ReadInfo(infos[i], remote, cache, up(i), wants, targets, goals, shards, done, G);
      if !one.RawReceived? {
        return i;
      }
      done := done + WantsIn(wants, infos[i].tensors);
    }
    return |infos|;
  }

  // ---------- the whole request ----------

  datatype SmallOutcome = AllRead | Refused | ReadFailed(i: nat)

  /** MultiGetCompactTensors, when nothing is cached from an earlier request. Every target of a request
      that does not fail is the global tensor at its offset. `up(i)` is what the transport reports for
      the i-th read. */
  method MultiGetCompactTensors(meta: TransferMeta, remote: Remote, goals: Tensors, targets: Targets, cache: array<Byte>,
                                up: nat -> bool, ghost G: Globals)
    returns (r: SmallOutcome, ghost infos: seq<CompactInfo>)
    requires TargetsFit(targets, goals) && AllValid(targets)
    requires forall key | key in goals :: GoodTarget(meta, key, goals[key])
    requires NamesHold(meta, remote, Names(goals), G)
    modifies cache, targets.Values
    ensures AllValid(targets)
    ensures r.AllRead? ==> forall key, t | key in goals && InShape(t, goals[key].size) ::
      && |key.globalOffset| == |t| && t in targets[key].elements
      && targets[key].elements[t] == G(key.key)(Plus(key.globalOffset, t))
    ensures r.Refused? ==> exists key :: key in goals && Unserved(meta, key, goals[key])
    ensures !r.Refused? ==> exists shards, wants ::
      Gathered(meta, goals, goals.Keys, shards, wants) && Partition(infos, shards, meta)
    ensures r.AllRead? ==> forall i | 0 <= i < |infos| :: up(i) && infos[i].size <= cache.Length
    ensures r.ReadFailed? ==>
      && r.i < |infos| && !(up(r.i) && infos[r.i].size <= cache.Length)
      && forall i | 0 <= i < r.i :: up(i) && infos[i].size <= cache.Length
  {
    infos := [];
    var ok, shards, wants := Gather(meta, goals);
    if !ok {
      return Refused, infos;
    }
    assert ReplicasHold(meta, remote, shards, G);
    var compacted := GetCompactTensorInfos(meta, shards);
    infos := compacted.infos;
    forall i | 0 <= i < |infos|
      ensures InfoReady(infos[i], remote, wants, goals, shards, G)
    {
      ReadsAreReady(infos, i, meta, remote, goals, shards, wants, G);
    }
    var n := ReadAll(compacted.infos, remote, cache, up, wants, targets, goals, shards, G);
    if n < |compacted.infos| {
      return ReadFailed(n), infos;
    }
    forall key | key in goals
      ensures TargetRight(Snapshot(targets)[key], key, goals[key].size, G)
    {
      TargetServed(Snapshot(targets), meta, goals, shards, wants, infos, key, G);
    }
    return AllRead, infos;
  }

  /** All replicas of these tensors hold their tensor and have the size of the last one; each may be
      stored at an offset of its own. */
  ghost predicate NamesHold(meta: TransferMeta, remote: Remote, names: set<string>, G: Globals) {
    forall raw, r | raw in meta && raw.key in names && r in meta[raw] ::
      && ReplicaHolds(r, remote, raw, G(raw.key)) && r.tensor.storageOffset >= 0
      && r.tensor.size == Last(meta[raw]).tensor.size
  }

  ghost predicate TargetRight(elements: map<seq<int>, seq<Byte>>, key: ShardedKey, size: seq<int>, G: Globals) {
    forall t | InShape(t, size) ::
      && |key.globalOffset| == |t| && t in elements && elements[t] == G(key.key)(Plus(key.globalOffset, t))
  }

  /** Every want is served by the read that brings its shard. */
  lemma WantIsServed(snap: Contents, meta: TransferMeta, goals: Tensors, shards: Tensors, wants: set<Want>, infos: seq<CompactInfo>,
                     want: Want, G: Globals)
    requires Partition(infos, shards, meta) && want in wants && want.0 in shards
    requires forall i | 0 <= i < |infos| :: Served(snap, goals, shards, WantsIn(wants, infos[i].tensors), G)
    ensures WantServed(snap, goals, shards, want, G)
  {
    var k :| 0 <= k < |infos| && want.0 in infos[k].tensors;
    assert want in WantsIn(wants, infos[k].tensors);
  }

  lemma TargetServed(snap: Contents, meta: TransferMeta, goals: Tensors, shards: Tensors, wants: set<Want>, infos: seq<CompactInfo>,
                     key: ShardedKey, G: Globals)
    requires Gathered(meta, goals, goals.Keys, shards, wants) && Partition(infos, shards, meta)
    requires forall i | 0 <= i < |infos| :: Served(snap, goals, shards, WantsIn(wants, infos[i].tensors), G)
    requires key in goals && key in snap
    ensures TargetRight(snap[key], key, goals[key].size, G)
  {
    assert Reached(key, goals[key], shards, wants);
    forall t | InShape(t, goals[key].size)
      ensures t in snap[key] && snap[key][t] == G(key.key)(Plus(key.globalOffset, t))
    {
      var c := Plus(key.globalOffset, t);
      assert Contains(Box(key.globalOffset, goals[key].size), c);
      var raw :| (raw, key) in wants && raw in shards && Contains(Box(raw.globalOffset, shards[raw].size), c);
      WantIsServed(snap, meta, goals, shards, wants, infos, (raw, key), G);
    }
  }
}
