/** Greedy distribution of the shards to be transferred over the nodes that hold them. */
module Distribution {
  import opened Shards
  import opened ReadPath
  import opened NodeEntries
  import opened Validation
  import R = Ranks

  /** What the distribution depends on, for one shard: who holds it and how many bytes it has. */
  datatype Job = Job(holders: set<NodeInfo>, bytes: int)

  type Jobs = map<ShardedKey, Job>

  type Loads = map<NodeInfo, int>

  type Assignment = map<NodeInfo, set<ShardedKey>>

  function Codes(s: string): seq<int> {
    seq(|s|, i requires 0 <= i < |s| => s[i] as int)
  }

  function Load(loads: Loads, n: NodeInfo): int {
    if n in loads then loads[n] else 0
  }

  /** node_infocompare: load, then host name, then the two ports. */
  function NodeRank(loads: Loads, n: NodeInfo): R.Rank {
    [[Load(loads, n)], Codes(n.host), [n.rdmaPort], [n.ctrlPort]]
  }

  /** tensor_shard_pair_compare: number of holders, bytes, key, and the offset, shorter ones first. */
  function ShardRank(key: ShardedKey, holders: int, bytes: int): R.Rank {
    [[holders], [bytes], Codes(key.key), [|key.globalOffset|] + key.globalOffset]
  }

  ghost function NodeRanks(loads: Loads, nodes: set<NodeInfo>): map<NodeInfo, R.Rank> {
    map n | n in nodes :: NodeRank(loads, n)
  }

  ghost function ShardRanks(jobs: Jobs): map<ShardedKey, R.Rank> {
    map k | k in jobs :: ShardRank(k, |jobs[k].holders|, jobs[k].bytes)
  }

  lemma CodesInjective(a: string, b: string)
    requires Codes(a) == Codes(b)
    ensures a == b
  {
    assert |a| == |Codes(a)| == |Codes(b)| == |b|;
    forall i | 0 <= i < |a|
      ensures a[i] == b[i]
    {
      assert Codes(a)[i] == Codes(b)[i];
    }
  }

  lemma NodeRanksInjective(loads: Loads, nodes: set<NodeInfo>)
    ensures R.Injective(nodes, NodeRanks(loads, nodes))
  {
    forall x, y | x in nodes && y in nodes && NodeRank(loads, x) == NodeRank(loads, y)
      ensures x == y
    {
      assert NodeRank(loads, x)[1] == NodeRank(loads, y)[1];
      assert NodeRank(loads, x)[2] == NodeRank(loads, y)[2] && NodeRank(loads, x)[3] == NodeRank(loads, y)[3];
      CodesInjective(x.host, y.host);
    }
  }

  /** Shards are told apart by name and offset. */
  ghost predicate DistinctPlaces(keys: set<ShardedKey>) {
    forall j, k | j in keys && k in keys && j.key == k.key && j.globalOffset == k.globalOffset :: j == k
  }

  lemma ShardRanksInjective(jobs: Jobs, todo: set<ShardedKey>)
    requires DistinctPlaces(jobs.Keys) && todo <= jobs.Keys
    ensures R.Injective(todo, ShardRanks(jobs))
  {
    forall x, y | x in todo && y in todo && ShardRanks(jobs)[x] == ShardRanks(jobs)[y]
      ensures x == y
    {
      var a, b := ShardRanks(jobs)[x], ShardRanks(jobs)[y];
      assert a[2] == b[2] && a[3] == b[3];
      CodesInjective(x.key, y.key);
      assert x.globalOffset == a[3][1..] && y.globalOffset == b[3][1..];
    }
  }

  // ---------- the orders, by what is compared ----------

  /** The first text comes first in a dictionary: at the first difference its character is smaller, or it
      ends there. */
  ghost predicate TextLess(a: string, b: string) {
    exists k :: TextLessAt(a, b, k)
  }

  predicate TextLessAt(a: string, b: string, k: int) {
    0 <= k <= |a| && k < |b| && a[..k] == b[..k] && (k == |a| || a[k] < b[k])
  }

  lemma TextOrder(a: string, b: string)
    ensures R.Lex(Codes(a), Codes(b)) <==> TextLess(a, b)
  {
    R.LexIsFirstDifference(Codes(a), Codes(b));
    forall k
      ensures R.LessAt(Codes(a), Codes(b), k) <==> TextLessAt(a, b, k)
    {
      if 0 <= k <= |a| && k < |b| {
        assert Codes(a)[..k] == Codes(a[..k]) && Codes(b)[..k] == Codes(b[..k]);
        if Codes(a[..k]) == Codes(b[..k]) {
          CodesInjective(a[..k], b[..k]);
        }
      }
    }
  }

  /** Node y comes after node x: it has less load, or as much and a smaller name, and so on. */
  ghost predicate NodeAfter(loads: Loads, y: NodeInfo, x: NodeInfo) {
    if Load(loads, y) != Load(loads, x) then Load(loads, y) < Load(loads, x)
    else if y.host != x.host then TextLess(y.host, x.host)
    else if y.rdmaPort != x.rdmaPort then y.rdmaPort < x.rdmaPort
    else y.ctrlPort < x.ctrlPort
  }

  lemma LexOne(a: int, b: int)
    ensures R.Lex([a], [b]) <==> a < b
    ensures [a] == [b] <==> a == b
  {
    assert [a][0] == a && [b][0] == b;
  }

  lemma NodeOrder(loads: Loads, y: NodeInfo, x: NodeInfo)
    ensures R.Below(NodeRank(loads, y), NodeRank(loads, x)) <==> NodeAfter(loads, y, x)
  {
    R.BelowFour(NodeRank(loads, y), NodeRank(loads, x));
    LexOne(Load(loads, y), Load(loads, x));
    LexOne(y.rdmaPort, x.rdmaPort);
    LexOne(y.ctrlPort, x.ctrlPort);
    TextOrder(y.host, x.host);
    if Codes(y.host) == Codes(x.host) {
      CodesInjective(y.host, x.host);
    }
  }

  /** Offset lists: shorter ones first, and those of one length by the first difference. */
  ghost predicate OffsetLess(a: seq<int>, b: seq<int>) {
    if |a| != |b| then |a| < |b| else exists k :: 0 <= k < |a| && a[..k] == b[..k] && a[k] < b[k]
  }

  /** Shard y is taken after shard x: it has fewer holders, or as many and fewer bytes, and so on. */
  ghost predicate ShardAfter(jobs: Jobs, y: ShardedKey, x: ShardedKey)
    requires y in jobs && x in jobs
  {
    if |jobs[y].holders| != |jobs[x].holders| then |jobs[y].holders| < |jobs[x].holders|
    else if jobs[y].bytes != jobs[x].bytes then jobs[y].bytes < jobs[x].bytes
    else if y.key != x.key then TextLess(y.key, x.key)
    else OffsetLess(y.globalOffset, x.globalOffset)
  }

  lemma OffsetOrder(a: seq<int>, b: seq<int>)
    ensures R.Lex([|a|] + a, [|b|] + b) <==> OffsetLess(a, b)
  {
    assert ([|a|] + a)[1..] == a && ([|b|] + b)[1..] == b;
    R.LexIsFirstDifference(a, b);
    if |a| == |b| && R.Lex(a, b) {
      var k :| R.LessAt(a, b, k);
      assert 0 <= k < |a| && a[..k] == b[..k] && a[k] < b[k];
    }
    if |a| == |b| && OffsetLess(a, b) {
      var k :| 0 <= k < |a| && a[..k] == b[..k] && a[k] < b[k];
      assert R.LessAt(a, b, k);
    }
  }

  lemma ShardOrder(jobs: Jobs, y: ShardedKey, x: ShardedKey)
    requires y in jobs && x in jobs
    ensures R.Below(ShardRanks(jobs)[y], ShardRanks(jobs)[x]) <==> ShardAfter(jobs, y, x)
  {
    R.BelowFour(ShardRanks(jobs)[y], ShardRanks(jobs)[x]);
    LexOne(|jobs[y].holders|, |jobs[x].holders|);
    LexOne(jobs[y].bytes, jobs[x].bytes);
    TextOrder(y.key, x.key);
    OffsetOrder(y.globalOffset, x.globalOffset);
    R.LexTotal([|y.globalOffset|] + y.globalOffset, [|x.globalOffset|] + x.globalOffset);
    if Codes(y.key) == Codes(x.key) {
      CodesInjective(y.key, x.key);
    }
  }

  // ---------- the order-free result ----------

  /** The n holders that rank highest, one after the other. */
  ghost function TopNodes(holders: set<NodeInfo>, rank: map<NodeInfo, R.Rank>, n: int): seq<NodeInfo>
    requires holders <= rank.Keys
    decreases |holders|
  {
    if n <= 0 || holders == {} then [] else
      var top := R.Top(holders, rank);
      [top] + TopNodes(holders - {top}, rank, n - 1)
  }

  function AddLoad(loads: Loads, nodes: seq<NodeInfo>, bytes: int): Loads
    decreases |nodes|
  {
    if nodes == [] then loads else
      var before, last := AddLoad(loads, nodes[..|nodes| - 1], bytes), nodes[|nodes| - 1];
      before[last := Load(before, last) + bytes]
  }

  function Give(ret: Assignment, nodes: seq<NodeInfo>, key: ShardedKey): Assignment
    decreases |nodes|
  {
    if nodes == [] then ret else
      var before, last := Give(ret, nodes[..|nodes| - 1], key), nodes[|nodes| - 1];
      before[last := (if last in before then before[last] else {}) + {key}]
  }

  /** The greedy run over the shards in `todo`, highest rank first. */
  ghost function Greedy(jobs: Jobs, todo: set<ShardedKey>, n: int, ret: Assignment, loads: Loads): (Assignment, Loads)
    requires todo <= jobs.Keys
    decreases |todo|
  {
    if todo == {} then (ret, loads) else
      var key := R.Top(todo, ShardRanks(jobs));
      var nodes := Chosen(jobs[key], loads, n);
      Greedy(jobs, todo - {key}, n, Give(ret, nodes, key), AddLoad(loads, nodes, jobs[key].bytes))
  }

  ghost function Chosen(job: Job, loads: Loads, n: int): seq<NodeInfo> {
    TopNodes(job.holders, NodeRanks(loads, job.holders), n)
  }

  // ---------- the code ----------

  /** DetermineTopNodeForShard, with the nodes that hold the shard in any order. */
  method DetermineTopNodeForShard(nodes: seq<NodeInfo>, bytes: int, mainReplica: int, loads: Loads)
    returns (ret: seq<NodeInfo>, loads': Loads)
    requires R.NoRepeats(nodes)
    ensures ret == Chosen(Job(R.Elements(nodes), bytes), loads, mainReplica)
    ensures loads' == AddLoad(loads, ret, bytes)
    ensures R.NoRepeats(ret) && |ret| == Replicas(Job(R.Elements(nodes), bytes), mainReplica)
    ensures FirstOf(loads, R.Elements(nodes), ret)
    ensures forall x :: Load(loads', x) == Load(loads, x) + (if x in ret then bytes else 0)
  {
    var rank := map n | n in nodes :: NodeRank(loads, n);
    assert rank == NodeRanks(loads, R.Elements(nodes));
    NodeRanksInjective(loads, R.Elements(nodes));
    ret, loads' := PopNodes(nodes, rank, bytes, mainReplica, loads);
    ChosenAreFirst(Job(R.Elements(nodes), bytes), loads, mainReplica);
    forall x
      ensures Load(loads', x) == Load(loads, x) + (if x in ret then bytes else 0)
    {
      LoadAdded(loads, ret, bytes, x);
    }
  }

  /** `ret` was popped, its load added, and the nodes in `rest` are still queued. */
  ghost predicate Popped(nodes: set<NodeInfo>, rank: map<NodeInfo, R.Rank>, n: int, bytes: int, loads: Loads,
                         rest: set<NodeInfo>, ret: seq<NodeInfo>, now: Loads, left: int) {
    && R.Injective(nodes, rank) && R.Injective(rest, rank)
    && TopNodes(nodes, rank, n) == ret + TopNodes(rest, rank, left)
    && now == AddLoad(loads, ret, bytes)
    && forall x | x in rest :: Load(now, x) == Load(loads, x)
  }

  lemma PopStep(nodes: set<NodeInfo>, rank: map<NodeInfo, R.Rank>, n: int, bytes: int, loads: Loads,
                rest: set<NodeInfo>, ret: seq<NodeInfo>, now: Loads, left: int)
    requires Popped(nodes, rank, n, bytes, loads, rest, ret, now, left) && rest != {} && left > 0
    ensures var top := R.Top(rest, rank);
            && Load(now, top) == Load(loads, top)
            && Popped(nodes, rank, n, bytes, loads, rest - {top}, ret + [top], now[top := Load(now, top) + bytes], left - 1)
  {
    var top := R.Top(rest, rank);
    NextTop(ret, rest, rank, left);
    FewerInjective(rest, rest - {top}, top, rank);
    LoadsApart(loads, now, rest, top, bytes);
    AddLoadNext(loads, ret, top, bytes);
  }

  /** The loop that pops nodes and adds the shard to their load. */
  method PopNodes(nodes: seq<NodeInfo>, rank: map<NodeInfo, R.Rank>, bytes: int, mainReplica: int, loads: Loads)
    returns (ret: seq<NodeInfo>, loads': Loads)
    requires R.NoRepeats(nodes) && R.Injective(R.Elements(nodes), rank)
    ensures ret == TopNodes(R.Elements(nodes), rank, mainReplica)
    ensures loads' == AddLoad(loads, ret, bytes)
  {
    var queue := nodes;
    ret, loads' := [], loads;
    var i := 0;
    while i < mainReplica && queue != []
      invariant 0 <= i && R.NoRepeats(queue)
      invariant Popped(R.Elements(nodes), rank, mainReplica, bytes, loads, R.Elements(queue), ret, loads', mainReplica - i)
      decreases |queue|
    {
      ghost var rest := R.Elements(queue);
      var top;
      top, queue := R.PopTop(queue, rank);
      PopStep(R.Elements(nodes), rank, mainReplica, bytes, loads, rest, ret, loads', mainReplica - i);
      ret, loads', i := ret + [top], loads'[top := Load(loads', top) + bytes], i + 1;
    }
    assert queue == [] ==> R.Elements(queue) == {};
  }

  lemma FewerInjective(s: set<NodeInfo>, rest: set<NodeInfo>, top: NodeInfo, rank: map<NodeInfo, R.Rank>)
    requires R.Injective(s, rank) && rest == s - {top}
    ensures R.Injective(rest, rank)
  {
  }

  /** The nodes still queued have the load they had at the start. */
  lemma LoadsApart(loads: Loads, now: Loads, s: set<NodeInfo>, top: NodeInfo, bytes: int)
    requires top in s && forall x | x in s :: Load(now, x) == Load(loads, x)
    ensures Load(now, top) == Load(loads, top)
    ensures forall x | x in s - {top} :: Load(now[top := Load(loads, top) + bytes], x) == Load(loads, x)
  {
  }

  lemma NextTop(ret: seq<NodeInfo>, s: set<NodeInfo>, rank: map<NodeInfo, R.Rank>, n: int)
    requires s != {} && s <= rank.Keys && n > 0
    ensures ret + TopNodes(s, rank, n) == ret + [R.Top(s, rank)] + TopNodes(s - {R.Top(s, rank)}, rank, n - 1)
  {
  }

  lemma AddLoadNext(loads: Loads, nodes: seq<NodeInfo>, top: NodeInfo, bytes: int)
    ensures AddLoad(loads, nodes + [top], bytes)
         == AddLoad(loads, nodes, bytes)[top := Load(AddLoad(loads, nodes, bytes), top) + bytes]
  {
    assert (nodes + [top])[..|nodes|] == nodes;
  }

  function NodesOf(list: seq<Replica>): (nodes: seq<NodeInfo>)
    ensures |nodes| == |list|
  {
    seq(|list|, i requires 0 <= i < |list| => list[i].node)
  }

  ghost function JobOf(list: seq<Replica>): Job
    requires list != []
  {
    Job(R.Elements(NodesOf(list)), ByteSize(list[0].tensor))
  }

  /** The metadata without the order of its lists. */
  ghost function JobsOf(meta: TransferMeta): Jobs
    requires forall key | key in meta :: meta[key] != []
  {
    map key | key in meta :: JobOf(meta[key])
  }

  /** DistributeTensorTransferMeta: the result is the order-free one, and the same for the metadata in
      any other order. */
  method DistributeTensorTransferMeta(meta: TransferMeta, mainReplica: int)
    returns (ok: bool, ret: Assignment, ghost loads: Loads)
    requires DistinctPlaces(meta.Keys)
    requires forall key | key in meta :: R.NoRepeats(NodesOf(meta[key]))
    ensures ok <==> ValidMeta(meta)
    ensures ok ==> (ret, loads) == Greedy(JobsOf(meta), meta.Keys, mainReplica, map[], map[])
    ensures ok ==> exists order ::
      && (forall k | k in order :: k in meta) && Ranked(JobsOf(meta), order, meta.Keys)
      && (ret, loads) == InOrder(JobsOf(meta), order, mainReplica, map[], map[])
    ensures forall other | Rearranged(meta, other) ::
      && (ok <==> ValidMeta(other))
      && (ok ==> (ret, loads) == Greedy(JobsOf(other), other.Keys, mainReplica, map[], map[]))
  {
    forall other | Rearranged(meta, other)
      ensures ValidMeta(meta) <==> ValidMeta(other)
      ensures ValidMeta(meta) ==>
        Greedy(JobsOf(meta), meta.Keys, mainReplica, map[], map[]) == Greedy(JobsOf(other), other.Keys, mainReplica, map[], map[])
    {
      OrderDoesNotMatter(meta, other, mainReplica);
    }
    var fault := ValidateTensorTransferMeta(meta);
    ok, ret, loads := fault.Fine?, map[], map[];
    if ok {
      ret, loads := Distribute(meta, mainReplica);
      ghost var order := GreedyInOrder(JobsOf(meta), meta.Keys, mainReplica, map[], map[]);
    }
  }

  /** The loop over the shards. */
  method Distribute(meta: TransferMeta, mainReplica: int) returns (ret: Assignment, ghost loads: Loads)
    requires DistinctPlaces(meta.Keys)
    requires forall key | key in meta :: meta[key] != [] && R.NoRepeats(NodesOf(meta[key]))
    ensures (ret, loads) == Greedy(JobsOf(meta), meta.Keys, mainReplica, map[], map[])
  {
    ret, loads := map[], map[];
    ghost var jobs := JobsOf(meta);
    var ranks := map key | key in meta :: ShardRank(key, |meta[key]|, ByteSize(meta[key][0].tensor));
    RanksFromLists(meta, ranks);
    var queue := ListKeys(meta);
    var sizes: Loads := map[];
    while queue != []
      invariant R.NoRepeats(queue) && R.Elements(queue) <= meta.Keys
      invariant Greedy(jobs, meta.Keys, mainReplica, map[], map[]) == Greedy(jobs, R.Elements(queue), mainReplica, ret, sizes)
      decreases |queue|
    {
      ShardRanksInjective(jobs, R.Elements(queue));
      var key, rest := R.PopTop(queue, ranks);
      assert key in R.Elements(queue);
      var top;
      top, sizes := DetermineTopNodeForShard(NodesOf(meta[key]), ByteSize(meta[key][0].tensor), mainReplica, sizes);
      ret := GiveAll(ret, top, key);
      queue := rest;
    }
    assert R.Elements(queue) == {};
    loads := sizes;
  }

  lemma RanksFromLists(meta: TransferMeta, ranks: map<ShardedKey, R.Rank>)
    requires forall key | key in meta :: meta[key] != [] && R.NoRepeats(NodesOf(meta[key]))
    requires ranks == map key | key in meta :: ShardRank(key, |meta[key]|, ByteSize(meta[key][0].tensor))
    ensures ranks == ShardRanks(JobsOf(meta))
  {
    forall key | key in meta
      ensures |JobOf(meta[key]).holders| == |meta[key]|
    {
      CountElements(NodesOf(meta[key]));
    }
  }

  /** The same entries, in lists of any order. */
  ghost predicate Rearranged(a: TransferMeta, b: TransferMeta) {
    a.Keys == b.Keys && forall key | key in a :: multiset(a[key]) == multiset(b[key])
  }

  lemma SameLength(a: seq<Replica>, b: seq<Replica>)
    requires multiset(a) == multiset(b)
    ensures |a| == |b| && forall r :: r in a <==> r in b
  {
    assert |a| == |multiset(a)| && |b| == |multiset(b)|;
    forall r: Replica
      ensures r in a <==> r in b
    {
      assert r in a <==> r in multiset(a);
      assert r in b <==> r in multiset(b);
    }
  }

  lemma StillValid(a: TransferMeta, b: TransferMeta)
    requires Rearranged(a, b) && ValidMeta(a)
    ensures ValidMeta(b)
  {
    forall key | key in b
      ensures ValidList(b[key])
    {
      SameLength(a[key], b[key]);
    }
  }

  lemma SameBytes(a: seq<Replica>, b: seq<Replica>)
    requires multiset(a) == multiset(b) && ValidList(a)
    ensures b != [] && ByteSize(a[0].tensor) == ByteSize(b[0].tensor)
  {
    SameLength(a, b);
    assert b[0] in a && a[0] in a;
  }

  lemma SameNodes(a: seq<Replica>, b: seq<Replica>)
    requires multiset(a) == multiset(b)
    ensures R.Elements(NodesOf(a)) == R.Elements(NodesOf(b))
  {
    SameLength(a, b);
    NodesIn(a, b);
    NodesIn(b, a);
  }

  lemma NodesIn(a: seq<Replica>, b: seq<Replica>)
    requires forall r :: r in a ==> r in b
    ensures R.Elements(NodesOf(a)) <= R.Elements(NodesOf(b))
  {
    forall n | n in R.Elements(NodesOf(a))
      ensures n in R.Elements(NodesOf(b))
    {
      var i :| 0 <= i < |a| && a[i].node == n;
      assert a[i] in b;
      var j :| 0 <= j < |b| && b[j] == a[i];
      assert NodesOf(b)[j] == n;
    }
  }

  lemma SameJobs(a: TransferMeta, b: TransferMeta)
    requires Rearranged(a, b) && ValidMeta(a)
    ensures (forall key | key in b :: b[key] != []) && JobsOf(a) == JobsOf(b)
  {
    forall key | key in a
      ensures a[key] != [] && b[key] != [] && JobOf(a[key]) == JobOf(b[key])
    {
      assert ValidList(a[key]);
      SameJob(a[key], b[key]);
    }
  }

  lemma SameJob(a: seq<Replica>, b: seq<Replica>)
    requires multiset(a) == multiset(b) && ValidList(a)
    ensures b != [] && JobOf(a) == JobOf(b)
  {
    SameNodes(a, b);
    SameBytes(a, b);
  }

  /** The distribution depends on the entries only: rearranged metadata is valid or not alike, stands for
      the same jobs, and so gives every node the same shards and the same load. */
  lemma OrderDoesNotMatter(a: TransferMeta, b: TransferMeta, mainReplica: int)
    requires Rearranged(a, b)
    ensures ValidMeta(a) <==> ValidMeta(b)
    ensures ValidMeta(a) ==>
      && JobsOf(a) == JobsOf(b)
      && Greedy(JobsOf(a), a.Keys, mainReplica, map[], map[]) == Greedy(JobsOf(b), b.Keys, mainReplica, map[], map[])
  {
    if ValidMeta(a) {
      StillValid(a, b);
      SameJobs(a, b);
    }
    if ValidMeta(b) {
      StillValid(b, a);
    }
  }

  method ListKeys(meta: TransferMeta) returns (q: seq<ShardedKey>)
    ensures R.NoRepeats(q) && R.Elements(q) == meta.Keys
  {
    q := [];
    var rest := meta.Keys;
    while rest != {}
      invariant rest <= meta.Keys && R.NoRepeats(q) && R.Elements(q) == meta.Keys - rest
      decreases rest
    {
      var key :| key in rest;
      assert key !in R.Elements(q);
      assert R.Elements(q + [key]) == R.Elements(q) + {key};
      assert meta.Keys - (rest - {key}) == meta.Keys - rest + {key};
      rest := rest - {key};
      q := q + [key];
    }
  }

  /** The loop that enters a shard at its nodes. */
  method GiveAll(ret: Assignment, nodes: seq<NodeInfo>, key: ShardedKey) returns (ret': Assignment)
    ensures ret' == Give(ret, nodes, key)
  {
    ret' := ret;
    for i := 0 to |nodes|
      invariant ret' == Give(ret, nodes[..i], key)
    {
      assert nodes[..i + 1][..i] == nodes[..i];
      var node := nodes[i];
      if node !in ret' {
        ret' := ret'[node := {}];
      }
      ret' := ret'[node := ret'[node] + {key}];
    }
    assert nodes[..|nodes|] == nodes;
  }

  lemma {:induction false} CountElements<T(!new)>(q: seq<T>)
    requires R.NoRepeats(q)
    ensures |R.Elements(q)| == |q|
  {
    if q == [] {
      assert R.Elements(q) == {};
    } else {
      var front, last := q[..|q| - 1], q[|q| - 1];
      CountElements(front);
      assert q == front + [last];
      assert R.Elements(q) == R.Elements(front) + {last};
      assert last !in R.Elements(front);
    }
  }

  // ---------- what the result means ----------

  function Replicas(job: Job, n: int): int {
    if n <= 0 then 0 else if n < |job.holders| then n else |job.holders|
  }

  /** The nodes a shard was given to. */
  ghost function AssignedTo(ret: Assignment, key: ShardedKey): set<NodeInfo> {
    set node | node in ret && key in ret[node]
  }

  /** The chosen nodes are different holders, as many as asked for or as there are. */
  lemma {:induction false} TopNodesMeans(holders: set<NodeInfo>, rank: map<NodeInfo, R.Rank>, n: int)
    requires holders <= rank.Keys
    ensures R.NoRepeats(TopNodes(holders, rank, n))
    ensures R.Elements(TopNodes(holders, rank, n)) <= holders
    ensures |TopNodes(holders, rank, n)| == Replicas(Job(holders, 0), n)
    decreases |holders|
  {
    if n > 0 && holders != {} {
      var top := R.Top(holders, rank);
      var rest := TopNodes(holders - {top}, rank, n - 1);
      TopNodesMeans(holders - {top}, rank, n - 1);
      assert forall x | x in rest :: x in R.Elements(rest);
      assert TopNodes(holders, rank, n) == [top] + rest;
    }
  }

  /** Everything else comes after the top. */
  lemma TopOutranks(loads: Loads, all: set<NodeInfo>, holders: set<NodeInfo>, top: NodeInfo, y: NodeInfo)
    requires holders <= all && R.IsTop(top, holders, NodeRanks(loads, all)) && y in holders && y != top
    ensures NodeAfter(loads, y, top)
  {
    NodeRanksInjective(loads, all);
    R.BelowTotal(NodeRanks(loads, all)[y], NodeRanks(loads, all)[top]);
    NodeOrder(loads, y, top);
  }

  /** The nodes come in order, and everything else in the set comes after them. */
  ghost predicate FirstOf(loads: Loads, holders: set<NodeInfo>, nodes: seq<NodeInfo>) {
    && (forall x | x in nodes :: x in holders)
    && (forall i, j | 0 <= i < j < |nodes| :: NodeAfter(loads, nodes[j], nodes[i]))
    && (forall x, y | x in nodes && y in holders && y !in nodes :: NodeAfter(loads, y, x))
  }

  lemma FirstOfNext(loads: Loads, holders: set<NodeInfo>, top: NodeInfo, rest: seq<NodeInfo>)
    requires top in holders && FirstOf(loads, holders - {top}, rest)
    requires forall y | y in holders && y != top :: NodeAfter(loads, y, top)
    ensures FirstOf(loads, holders, [top] + rest)
  {
    var nodes := [top] + rest;
    forall i, j | 0 <= i < j < |nodes|
      ensures NodeAfter(loads, nodes[j], nodes[i])
    {
      assert nodes[j] == rest[j - 1] && nodes[j] in rest;
      if i > 0 {
        assert nodes[i] == rest[i - 1];
      }
    }
    forall x, y | x in nodes && y in holders && y !in nodes
      ensures NodeAfter(loads, y, x)
    {
      assert top in nodes && (y in rest ==> y in nodes);
    }
  }

  /** The chosen nodes come in the order of load, name and ports, and every holder left out comes after
      all of them: none has a higher load than a chosen one. */
  lemma {:induction false} TopNodesOrder(loads: Loads, all: set<NodeInfo>, holders: set<NodeInfo>, n: int)
    requires holders <= all && n > 0
    ensures FirstOf(loads, holders, TopNodes(holders, NodeRanks(loads, all), n))
    decreases |holders|
  {
    if holders != {} {
      var rank := NodeRanks(loads, all);
      var top := R.Top(holders, rank);
      forall y | y in holders && y != top
        ensures NodeAfter(loads, y, top)
      {
        TopOutranks(loads, all, holders, top, y);
      }
      if n > 1 {
        TopNodesOrder(loads, all, holders - {top}, n - 1);
      }
      FirstOfNext(loads, holders, top, TopNodes(holders - {top}, rank, n - 1));
    }
  }

  /** What a shard is given to: different holders, as many as asked for or as there are, those with the
      highest load first. */
  lemma ChosenAreFirst(job: Job, loads: Loads, n: int)
    ensures var nodes := Chosen(job, loads, n);
            R.NoRepeats(nodes) && |nodes| == Replicas(job, n) && FirstOf(loads, job.holders, nodes)
  {
    TopNodesMeans(job.holders, NodeRanks(loads, job.holders), n);
    if n > 0 {
      TopNodesOrder(loads, job.holders, job.holders, n);
    }
  }

  // ---------- the order of the shards ----------

  /** The shards one after the other: each goes to its nodes and adds to their load. */
  ghost function InOrder(jobs: Jobs, order: seq<ShardedKey>, n: int, ret: Assignment, loads: Loads): (Assignment, Loads)
    requires forall k | k in order :: k in jobs
    decreases |order|
  {
    if order == [] then (ret, loads) else
      var nodes := Chosen(jobs[order[0]], loads, n);
      InOrder(jobs, order[1..], n, Give(ret, nodes, order[0]), AddLoad(loads, nodes, jobs[order[0]].bytes))
  }

  /** Every shard once, those with more holders first, and so on. */
  ghost predicate Ranked(jobs: Jobs, order: seq<ShardedKey>, todo: set<ShardedKey>)
    requires todo <= jobs.Keys
  {
    && R.NoRepeats(order) && R.Elements(order) == todo
    && forall i, j | 0 <= i < j < |order| :: order[i] in jobs && order[j] in jobs && ShardAfter(jobs, order[j], order[i])
  }

  /** The greedy run takes the shards in that order. */
  lemma {:induction false} GreedyInOrder(jobs: Jobs, todo: set<ShardedKey>, n: int, ret: Assignment, loads: Loads)
    returns (order: seq<ShardedKey>)
    requires todo <= jobs.Keys && DistinctPlaces(jobs.Keys)
    ensures Ranked(jobs, order, todo) && (forall k | k in order :: k in jobs)
    ensures Greedy(jobs, todo, n, ret, loads) == InOrder(jobs, order, n, ret, loads)
    decreases |todo|
  {
    order := [];
    if todo != {} {
      var key := R.Top(todo, ShardRanks(jobs));
      var nodes := Chosen(jobs[key], loads, n);
      var rest := GreedyInOrder(jobs, todo - {key}, n, Give(ret, nodes, key), AddLoad(loads, nodes, jobs[key].bytes));
      order := [key] + rest;
      TopIsFirst(jobs, todo, key, rest);
      assert order[1..] == rest;
    } else {
      assert R.Elements(order) == {};
    }
  }

  lemma TopIsFirst(jobs: Jobs, todo: set<ShardedKey>, key: ShardedKey, rest: seq<ShardedKey>)
    requires todo <= jobs.Keys && DistinctPlaces(jobs.Keys) && R.IsTop(key, todo, ShardRanks(jobs))
    requires Ranked(jobs, rest, todo - {key})
    ensures Ranked(jobs, [key] + rest, todo) && forall k | k in [key] + rest :: k in jobs
  {
    var order := [key] + rest;
    forall k | k in rest
      ensures k in todo && k != key && k in jobs && ShardAfter(jobs, k, key)
    {
      assert k in R.Elements(rest);
      ShardRanksInjective(jobs, todo);
      R.BelowTotal(ShardRanks(jobs)[k], ShardRanks(jobs)[key]);
      ShardOrder(jobs, k, key);
    }
    assert R.Elements(order) == R.Elements(rest) + {key};
  }

  lemma {:induction false} GiveMeans(ret: Assignment, nodes: seq<NodeInfo>, key: ShardedKey, k: ShardedKey)
    ensures AssignedTo(Give(ret, nodes, key), k)
         == if k == key then AssignedTo(ret, k) + R.Elements(nodes) else AssignedTo(ret, k)
    decreases |nodes|
  {
    if nodes == [] {
      assert R.Elements(nodes) == {};
    } else {
      var front, last := nodes[..|nodes| - 1], nodes[|nodes| - 1];
      GiveMeans(ret, front, key, k);
      assert nodes == front + [last];
      assert R.Elements(nodes) == R.Elements(front) + {last};
      var before := Give(ret, front, key);
      assert AssignedTo(Give(ret, nodes, key), k) == AssignedTo(before, k) + if k == key then {last} else {};
    }
  }

  lemma GivenOnce(job: Job, loads: Loads, n: int, ret: Assignment, key: ShardedKey)
    requires AssignedTo(ret, key) == {}
    ensures AssignedTo(Give(ret, Chosen(job, loads, n), key), key) <= job.holders
    ensures |AssignedTo(Give(ret, Chosen(job, loads, n), key), key)| == Replicas(job, n)
  {
    var nodes := Chosen(job, loads, n);
    GiveMeans(ret, nodes, key, key);
    TopNodesMeans(job.holders, NodeRanks(loads, job.holders), n);
    CountElements(nodes);
  }

  /** Every shard goes to exactly min(main_replica, holders) nodes, all of which hold it. */
  lemma {:induction false} EveryShardIsGiven(jobs: Jobs, todo: set<ShardedKey>, n: int, ret: Assignment, loads: Loads,
                                             k: ShardedKey)
    requires todo <= jobs.Keys && k in jobs
    requires k in todo ==> AssignedTo(ret, k) == {}
    ensures k !in todo ==> AssignedTo(Greedy(jobs, todo, n, ret, loads).0, k) == AssignedTo(ret, k)
    ensures k in todo ==> AssignedTo(Greedy(jobs, todo, n, ret, loads).0, k) <= jobs[k].holders
    ensures k in todo ==> |AssignedTo(Greedy(jobs, todo, n, ret, loads).0, k)| == Replicas(jobs[k], n)
    decreases |todo|
  {
    if todo != {} {
      var key := R.Top(todo, ShardRanks(jobs));
      var nodes := Chosen(jobs[key], loads, n);
      if k == key {
        GivenOnce(jobs[key], loads, n, ret, key);
      } else {
        GiveMeans(ret, nodes, key, k);
      }
      EveryShardIsGiven(jobs, todo - {key}, n, Give(ret, nodes, key), AddLoad(loads, nodes, jobs[key].bytes), k);
    }
  }

  // ---------- conservation of load ----------

  ghost function Total(loads: Loads): int
    decreases |loads|
  {
    if loads == map[] then 0 else
      var n :| n in loads;
      loads[n] + Total(loads - {n})
  }

  lemma {:induction false} TotalSplits(loads: Loads, n: NodeInfo)
    requires n in loads
    ensures Total(loads) == loads[n] + Total(loads - {n})
    decreases |loads|
  {
    var m :| m in loads && Total(loads) == loads[m] + Total(loads - {m});
    if m != n {
      TotalSplits(loads - {m}, n);
      TotalSplits(loads - {n}, m);
      assert loads - {m} - {n} == loads - {n} - {m};
    }
  }

  lemma TotalAfter(loads: Loads, n: NodeInfo, bytes: int)
    ensures Total(loads[n := Load(loads, n) + bytes]) == Total(loads) + bytes
  {
    var after := loads[n := Load(loads, n) + bytes];
    TotalSplits(after, n);
    if n in loads {
      TotalSplits(loads, n);
      assert after - {n} == loads - {n};
    } else {
      assert after - {n} == loads;
    }
  }

  lemma {:induction false} TotalOfAdd(loads: Loads, nodes: seq<NodeInfo>, bytes: int)
    ensures Total(AddLoad(loads, nodes, bytes)) == Total(loads) + |nodes| * bytes
    decreases |nodes|
  {
    if nodes != [] {
      var front, last := nodes[..|nodes| - 1], nodes[|nodes| - 1];
      TotalOfAdd(loads, front, bytes);
      TotalAfter(AddLoad(loads, front, bytes), last, bytes);
      OneMoreTimes(|front|, bytes);
    }
  }

  lemma OneMoreTimes(n: nat, bytes: int)
    ensures (n + 1) * bytes == n * bytes + bytes
  {
  }

  /** Bytes times replicas, added up over a set of shards. */
  ghost function Work(jobs: Jobs, todo: set<ShardedKey>, n: int): int
    requires todo <= jobs.Keys
    decreases |todo|
  {
    if todo == {} then 0 else
      var k :| k in todo;
      Replicas(jobs[k], n) * jobs[k].bytes + Work(jobs, todo - {k}, n)
  }

  lemma {:induction false} WorkSplits(jobs: Jobs, todo: set<ShardedKey>, n: int, k: ShardedKey)
    requires todo <= jobs.Keys && k in todo
    ensures Work(jobs, todo, n) == Replicas(jobs[k], n) * jobs[k].bytes + Work(jobs, todo - {k}, n)
    decreases |todo|
  {
    var m :| m in todo && Work(jobs, todo, n) == Replicas(jobs[m], n) * jobs[m].bytes + Work(jobs, todo - {m}, n);
    if m != k {
      WorkSplits(jobs, todo - {m}, n, k);
      WorkSplits(jobs, todo - {k}, n, m);
      assert todo - {m} - {k} == todo - {k} - {m};
    }
  }

  /** The nodes' loads add up to the bytes of every shard times the replicas it got. */
  lemma {:induction false} LoadIsConserved(jobs: Jobs, todo: set<ShardedKey>, n: int, ret: Assignment, loads: Loads)
    requires todo <= jobs.Keys
    ensures Total(Greedy(jobs, todo, n, ret, loads).1) == Total(loads) + Work(jobs, todo, n)
    decreases |todo|
  {
    if todo != {} {
      var key := R.Top(todo, ShardRanks(jobs));
      var nodes := Chosen(jobs[key], loads, n);
      TopNodesMeans(jobs[key].holders, NodeRanks(loads, jobs[key].holders), n);
      TotalOfAdd(loads, nodes, jobs[key].bytes);
      WorkSplits(jobs, todo, n, key);
      LoadIsConserved(jobs, todo - {key}, n, Give(ret, nodes, key), AddLoad(loads, nodes, jobs[key].bytes));
    }
  }

  // ---------- what a node's load is ----------

  lemma {:induction false} LoadAdded(loads: Loads, nodes: seq<NodeInfo>, bytes: int, x: NodeInfo)
    requires R.NoRepeats(nodes)
    ensures Load(AddLoad(loads, nodes, bytes), x) == Load(loads, x) + (if x in nodes then bytes else 0)
    decreases |nodes|
  {
    if nodes != [] {
      var front, last := nodes[..|nodes| - 1], nodes[|nodes| - 1];
      assert nodes == front + [last];
      LoadAdded(loads, front, bytes, x);
    }
  }

  /** The bytes of a set of shards. */
  ghost function BytesOf(jobs: Jobs, keys: set<ShardedKey>): int
    requires keys <= jobs.Keys
    decreases |keys|
  {
    if keys == {} then 0 else
      var k :| k in keys;
      jobs[k].bytes + BytesOf(jobs, keys - {k})
  }

  lemma {:induction false} BytesSplit(jobs: Jobs, keys: set<ShardedKey>, k: ShardedKey)
    requires keys <= jobs.Keys && k in keys
    ensures BytesOf(jobs, keys) == jobs[k].bytes + BytesOf(jobs, keys - {k})
    decreases |keys|
  {
    var m :| m in keys && BytesOf(jobs, keys) == jobs[m].bytes + BytesOf(jobs, keys - {m});
    if m != k {
      BytesSplit(jobs, keys - {m}, k);
      BytesSplit(jobs, keys - {k}, m);
      assert keys - {m} - {k} == keys - {k} - {m};
    }
  }

  ghost function Given(ret: Assignment, x: NodeInfo): set<ShardedKey> {
    if x in ret then ret[x] else {}
  }

  lemma GivenMore(ret: Assignment, nodes: seq<NodeInfo>, key: ShardedKey, x: NodeInfo)
    ensures Given(Give(ret, nodes, key), x) == Given(ret, x) + (if x in nodes then {key} else {})
  {
    forall k
      ensures k in Given(Give(ret, nodes, key), x) <==> k in Given(ret, x) || (x in nodes && k == key)
    {
      GiveMeans(ret, nodes, key, k);
      assert x in AssignedTo(Give(ret, nodes, key), k) <==> k in Given(Give(ret, nodes, key), x);
      assert x in AssignedTo(ret, k) <==> k in Given(ret, x);
      assert x in nodes <==> x in R.Elements(nodes);
    }
  }

  lemma OneMoreGiven(jobs: Jobs, key: ShardedKey, nodes: seq<NodeInfo>, ret: Assignment, loads: Loads, x: NodeInfo)
    requires R.NoRepeats(nodes) && key in jobs && Given(ret, x) <= jobs.Keys - {key}
    requires Load(loads, x) == BytesOf(jobs, Given(ret, x))
    ensures var ret', loads' := Give(ret, nodes, key), AddLoad(loads, nodes, jobs[key].bytes);
            Given(ret', x) <= Given(ret, x) + {key} && Load(loads', x) == BytesOf(jobs, Given(ret', x))
  {
    LoadAdded(loads, nodes, jobs[key].bytes, x);
    GivenMore(ret, nodes, key, x);
    if x in nodes {
      BytesSplit(jobs, Given(ret, x) + {key}, key);
      assert Given(ret, x) + {key} - {key} == Given(ret, x);
    } else {
      assert Given(ret, x) + {} == Given(ret, x);
    }
  }

  /** The load of a node is the bytes of the shards it was given. */
  lemma {:induction false} LoadIsGiven(jobs: Jobs, todo: set<ShardedKey>, n: int, ret: Assignment, loads: Loads, x: NodeInfo)
    requires todo <= jobs.Keys && Given(ret, x) <= jobs.Keys - todo && Load(loads, x) == BytesOf(jobs, Given(ret, x))
    ensures Given(Greedy(jobs, todo, n, ret, loads).0, x) <= jobs.Keys
    ensures Load(Greedy(jobs, todo, n, ret, loads).1, x) == BytesOf(jobs, Given(Greedy(jobs, todo, n, ret, loads).0, x))
    decreases |todo|
  {
    if todo != {} {
      var key := R.Top(todo, ShardRanks(jobs));
      var nodes := Chosen(jobs[key], loads, n);
      TopNodesMeans(jobs[key].holders, NodeRanks(loads, jobs[key].holders), n);
      OneMoreGiven(jobs, key, nodes, ret, loads, x);
      LoadIsGiven(jobs, todo - {key}, n, Give(ret, nodes, key), AddLoad(loads, nodes, jobs[key].bytes), x);
    }
  }
}
