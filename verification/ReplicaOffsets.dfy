/** Reads from a replica that is stored at another offset than the metadata in hand says: the offset
    that Get chooses is right for all contents, or wrong for some. */
module ReplicaOffsets {
  import opened Boxes
  import opened Shards
  import opened Pruning
  import opened ReadPath
  import opened NodeEntries

  /** A buffer of zeros with a single one. */
  function Marked(size: nat, place: int): (b: seq<Byte>)
    ensures |b| == size
    ensures forall i | 0 <= i < size :: b[i] == if i == place then 1 else 0
  {
    seq(size, i => if i == place then 1 else 0)
  }

  /** The element of a tensor at global coordinate g, as its buffer has it. */
  function Contents(buffer: seq<Byte>, t: TensorMeta, offset: seq<int>, g: seq<int>): seq<Byte> {
    if |g| == |offset| == |t.stride| then
      var lo := ElementIndex(t, Minus(g, offset)) * t.dtype.itemSize;
      if 0 <= lo <= lo + t.dtype.itemSize <= |buffer| then buffer[lo..lo + t.dtype.itemSize] else []
    else []
  }

  /** Every buffer that is large enough holds some tensor. */
  lemma BufferHolds(replica: Replica, remote: Remote, key: ShardedKey)
    requires RowMajor(replica.tensor) && NonNegative(replica.tensor.size) && replica.tensor.storageOffset >= 0
    requires |replica.tensor.size| == |key.globalOffset|
    requires (replica.node, replica.addr) in remote && |remote[(replica.node, replica.addr)]| == replica.size
    requires (replica.tensor.storageOffset + Product(replica.tensor.size)) * replica.tensor.dtype.itemSize <= replica.size
    ensures var buffer := remote[(replica.node, replica.addr)];
            ReplicaHolds(replica, remote, key, g => Contents(buffer, replica.tensor, key.globalOffset, g))
  {
    var buffer, t, w := remote[(replica.node, replica.addr)], replica.tensor, replica.tensor.dtype.itemSize;
    forall x | InShape(x, t.size)
      ensures 0 <= ElementIndex(t, x) * w && ElementIndex(t, x) * w + w <= replica.size
      ensures buffer[ElementIndex(t, x) * w..ElementIndex(t, x) * w + w]
           == Contents(buffer, t, key.globalOffset, Plus(key.globalOffset, x))
    {
      RowMajorDot(t.size, t.stride, x);
      FlatBounds(x, t.size);
      ElementBytes(ElementIndex(t, x), t.storageOffset + Product(t.size), w, 0);
      assert Minus(Plus(key.globalOffset, x), key.globalOffset) == x;
    }
  }

  /** When the replica is stored elsewhere and the request is not for offset zero, Get reads at the
      requested offset, where the part is not. */
  lemma ReadsElsewhere(r: RemoteShard, c: Shard, target: Shard, replica: Replica)
    requires FetchedFrom(r, c, target) && LaidOutLike(replica, c) && !OffsetFits(r.tensor.storageOffset, c, replica)
    ensures RemoteOffset(r.tensor, replica) == r.tensor.storageOffset * r.tensor.dtype.itemSize
    ensures 0 < r.tensor.storageOffset && 0 <= PartPlace(r, c, replica) && r.tensor.storageOffset != PartPlace(r, c, replica)
  {
    PartOffset(r, c, target);
  }

  /** Room for the shard and for the part, wherever either is looked for. */
  lemma RoomFor(a: int, n: int, b: int, m: int, w: nat) returns (size: nat)
    requires 0 <= a && 0 <= n && 0 <= b && 0 <= m
    ensures (a + n) * w <= size && b * w + m * w <= size && 0 <= b * w && 0 <= m * w
  {
    MulMono(0, b, w);
    MulMono(0, m, w);
    MulMono(0, a + n, w);
    size := (a + n) * w + (b * w + m * w);
  }

  /** The other half of FetchFits and ReceivedHolds: whenever the offsets do not fit, there is a buffer
      that holds the shard and from which every Get of the part stages something else. */
  lemma OffsetMatters(r: RemoteShard, c: Shard, target: Shard, o: nat, node: NodeInfo, addr: int)
    returns (replica: Replica, remote: Remote, G: seq<int> -> seq<Byte>)
    requires FetchedFrom(r, c, target) && RowMajor(c.tensor) && c.tensor.storageOffset >= 0 && c.tensor.dtype.itemSize > 0
    requires !(o == c.tensor.storageOffset || r.tensor.storageOffset == 0)
    ensures LaidOutLike(replica, c) && replica.tensor.storageOffset == o && ReplicaHolds(replica, remote, c.key, G)
    ensures Readable(remote, r.tensor, replica) && RemoteOffset(r.tensor, replica) + ByteSize(r.tensor) <= replica.size
    ensures forall bytes, at: nat :: ReceivedAt(bytes, at, r.tensor, replica, remote) ==>
      !StagedHolds(bytes, Staged(at, r.tensor), r.adjusted.globalOffset, G)
  {
    var t, w := c.tensor.(storageOffset := o), c.tensor.dtype.itemSize;
    var place := o + (r.tensor.storageOffset - c.tensor.storageOffset);
    ReadsElsewhere(r, c, target, Replica(addr, 0, "", node, t));
    ProductNonNegative(c.tensor.size);
    PartOffset(r, c, target);
    var size := RoomFor(o, Product(c.tensor.size), r.tensor.storageOffset, Product(r.tensor.size), w);
    replica := Replica(addr, size, "", node, t);
    var buffer := Marked(size, place * w);
    remote := map[(node, addr) := buffer];
    BufferHolds(replica, remote, c.key);
    G := g => Contents(buffer, t, c.key.globalOffset, g);
    forall bytes, at: nat | ReceivedAt(bytes, at, r.tensor, replica, remote)
      ensures !StagedHolds(bytes, Staged(at, r.tensor), r.adjusted.globalOffset, G)
    {
      FirstDiffers(bytes, at, r, c, target, replica, remote, G);
    }
  }

  /** The part's first element is marked, what Get received there is not. */
  lemma FirstDiffers(bytes: seq<Byte>, at: nat, r: RemoteShard, c: Shard, target: Shard, replica: Replica,
                     remote: Remote, G: seq<int> -> seq<Byte>)
    requires FetchedFrom(r, c, target) && LaidOutLike(replica, c) && !OffsetFits(r.tensor.storageOffset, c, replica)
    requires c.tensor.dtype.itemSize > 0
    requires ReplicaHolds(replica, remote, c.key, G) && ReceivedAt(bytes, at, r.tensor, replica, remote)
    requires remote[(replica.node, replica.addr)] == Marked(replica.size, PartPlace(r, c, replica) * c.tensor.dtype.itemSize)
    ensures !StagedHolds(bytes, Staged(at, r.tensor), r.adjusted.globalOffset, G)
  {
    ReadsElsewhere(r, c, target, replica);
    var buffer, w, s, place := remote[(replica.node, replica.addr)], c.tensor.dtype.itemSize, r.tensor.storageOffset, PartPlace(r, c, replica);
    var zero := seq(|r.tensor.size|, i => 0);
    assert InShape(zero, r.tensor.size);
    DotZero(r.tensor.stride, zero);
    ReceivedView(bytes, Staged(at, r.tensor), buffer, s, zero);
    PartInReplica(r, c, target, replica, zero);
    SameMultiple(s, place, w);
    assert buffer[s * w..s * w + w][0] == 0;
    assert buffer[place * w..place * w + w][0] == 1;
    assert View(bytes, Staged(at, r.tensor), zero) != G(Plus(r.adjusted.globalOffset, zero));
  }

  // ---------- an example ----------

  const FIRST: NodeInfo := NodeInfo("a", 1, 2)
  const LAST: NodeInfo := NodeInfo("b", 1, 2)
  const KEY: ShardedKey := ShardedKey("w", [1], [0])

  /** A single byte, stored `o` bytes into its buffer. */
  function OneByte(o: int): TensorMeta { TensorMeta([1], [1], o, Dtype(0, 1)) }

  /** Two replicas of one shard: three bytes in at one node, two bytes in at the other. */
  function TwoReplicas(): seq<Replica> {
    [Replica(16, 4, "k", FIRST, OneByte(3)), Replica(16, 4, "k", LAST, OneByte(2))]
  }

  function TwoBuffers(): Remote {
    map[(FIRST, 16) := [0, 0, 7, 9], (LAST, 16) := [0, 0, 9, 0]]
  }

  function Nine(g: seq<int>): seq<Byte> { [9] }

  /** Both replicas hold the tensor, whose only element is 9; the request carries the metadata of the
      last one, and the rank reads the first: it receives the byte in front of the element. */
  method ReplicaOffsetMissed() returns (r: GetResult, got: seq<Byte>)
    ensures forall i | 0 <= i < 2 :: ReplicaHolds(TwoReplicas()[i], TwoBuffers(), KEY, Nine)
    ensures r.Received? && got == [7] != Nine([0])
  {
    forall i | 0 <= i < 2
      ensures ReplicaHolds(TwoReplicas()[i], TwoBuffers(), KEY, Nine)
    {
      var t := OneByte(3 - i);
      forall x | InShape(x, [1])
        ensures ElementIndex(t, x) == 3 - i
      {
        assert x == [0] && Dot([1], [0]) == 1 * 0 + Dot([], []);
      }
      assert TwoReplicas()[i].tensor == t;
      assert TwoBuffers()[(TwoReplicas()[i].node, 16)][3 - i..4 - i] == [9];
    }
    var bucket := new Byte[1];
    assert Product([1]) == 1 * Product([]) && ByteSize(OneByte(2)) == 1;
    r := Get(map[KEY := TwoReplicas()], TwoBuffers(), 0, KEY, OneByte(2), bucket, 0, true);
    assert ChosenReplica(TwoReplicas(), 0) == TwoReplicas()[0];
    got := bucket[0..1];
  }
}
