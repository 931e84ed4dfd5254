/** Pruning of a remote shard: when the part a target needs is one contiguous piece, only that
    piece is fetched and the shard's size, storage offset and key are moved to it. */
module Pruning {
  import opened Boxes
  import opened Shards

  function Dot(stride: seq<int>, x: seq<int>): int
    requires |stride| == |x|
  {
    if x == [] then 0 else stride[0] * x[0] + Dot(stride[1..], x[1..])
  }

  /** Strides of a contiguous row-major tensor. */
  ghost predicate RowMajor(t: TensorMeta) {
    && |t.stride| == |t.size|
    && forall i | 0 <= i < |t.size| :: t.stride[i] == Product(t.size[i + 1..])
  }

  /** Position of element x in the tensor's storage, in elements. */
  function ElementIndex(t: TensorMeta, x: seq<int>): int
    requires |t.stride| == |x|
  {
    t.storageOffset + Dot(t.stride, x)
  }

  /** The rows of the shard from `shift` on, nothing else cut. */
  predicate Contiguous(t: TensorMeta, copyShape: seq<int>) {
    && |t.size| == |t.stride| == |copyShape|
    && forall i | 1 <= i < |t.size| :: t.size[i] == copyShape[i] && t.stride[i] == Product(t.size[i + 1..])
  }

  /** One slice of the first dimension. */
  function Slice(t: TensorMeta): TensorMeta
    requires |t.size| == |t.stride| > 0
  {
    t.(size := t.size[1..], stride := t.stride[1..])
  }

  /** The part cuts the first dimension only, and the slices of that are row-major tensors. */
  lemma ContiguousMeans(t: TensorMeta, copyShape: seq<int>)
    requires |t.size| == |t.stride| == |copyShape| > 0
    ensures Contiguous(t, copyShape) <==> copyShape[1..] == t.size[1..] && RowMajor(Slice(t))
  {
    var s := Slice(t);
    forall i | 0 <= i < |s.size|
      ensures s.size[i] == t.size[i + 1] && s.stride[i] == t.stride[i + 1] && s.size[i + 1..] == t.size[i + 2..]
    {
    }
    if Contiguous(t, copyShape) {
      forall i | 0 <= i < |s.size|
        ensures s.stride[i] == Product(s.size[i + 1..]) && copyShape[1..][i] == s.size[i]
      {
        assert t.stride[i + 1] == Product(t.size[i + 1 + 1..]);
      }
    }
    if copyShape[1..] == t.size[1..] && RowMajor(s) {
      forall i | 1 <= i < |t.size|
        ensures t.size[i] == copyShape[i] && t.stride[i] == Product(t.size[i + 1..])
      {
        assert copyShape[1..][i - 1] == t.size[1..][i - 1];
        assert s.stride[i - 1] == Product(s.size[i - 1 + 1..]);
      }
    }
  }

  /** The loop of IsContiguousShard, from the last dimension down; it never looks at stride[0] or size[0]. */
  method RowMajorBehind(t: TensorMeta, copyShape: seq<int>) returns (yes: bool)
    requires |t.size| == |t.stride| == |copyShape|
    ensures yes <==> Contiguous(t, copyShape)
  {
    var stride := 1;
    var i := |t.size| - 1;
    while i > 0
      invariant |t.size| > 0 ==> 0 <= i < |t.size| && stride == Product(t.size[i + 1..])
      invariant forall j | i < j < |t.size| && 1 <= j ::
        t.size[j] == copyShape[j] && t.stride[j] == Product(t.size[j + 1..])
    {
      if t.size[i] != copyShape[i] || t.stride[i] != stride {
        return false;
      }
      assert t.size[i..][1..] == t.size[i + 1..];
      stride := stride * t.size[i];
      i := i - 1;
    }
    return true;
  }

  /** IsContiguousShard: the part cuts the first dimension only, and the slices of that are row-major. */
  method IsContiguousShard(t: TensorMeta, copyShape: seq<int>) returns (yes: bool)
    requires |t.size| == |t.stride|
    ensures yes <==> Contiguous(t, copyShape)
    ensures yes ==> |t.size| == |copyShape|
    ensures |t.size| == |copyShape| > 0 ==> (yes <==> copyShape[1..] == t.size[1..] && RowMajor(Slice(t)))
    ensures t.size == copyShape == [] ==> yes
  {
    if |t.size| != |copyShape| {
      return false;
    }
    yes := RowMajorBehind(t, copyShape);
    if t.size != [] {
      ContiguousMeans(t, copyShape);
    }
  }

  /** A tensor's metadata as the code holds it, with the sizes in a buffer of its own. */
  class ATensor {
    const size: array<int>
    const stride: seq<int>
    const dtype: Dtype
    var storageOffset: int

    function Meta(): TensorMeta
      reads this, size
    {
      TensorMeta(size[..], stride, storageOffset, dtype)
    }

    constructor (t: TensorMeta)
      ensures Meta() == t && fresh(size)
    {
      var buffer := new int[|t.size|](i requires 0 <= i < |t.size| => t.size[i]);
      size, stride, dtype, storageOffset := buffer, t.stride, t.dtype, t.storageOffset;
      new;
      assert size[..] == t.size;
    }
  }

  /** The key of a shard, whose offset is moved in place. */
  class ShardKey {
    const name: string
    const globalShape: seq<int>
    var globalOffset: seq<int>

    function Value(): ShardedKey
      reads this
    {
      ShardedKey(name, globalShape, globalOffset)
    }

    constructor (key: ShardedKey)
      ensures Value() == key
    {
      name, globalShape, globalOffset := key.key, key.globalShape, key.globalOffset;
    }
  }

  /** The piece of a tensor that starts `copyOffset[0]` rows in. */
  function Pruned(t: TensorMeta, copyShape: seq<int>, copyOffset: seq<int>): TensorMeta
    requires t.stride != [] && copyOffset != []
  {
    t.(size := copyShape, storageOffset := t.storageOffset + t.stride[0] * copyOffset[0])
  }

  function Moved(key: ShardedKey, copyOffset: seq<int>): ShardedKey
    requires key.globalOffset != [] && copyOffset != []
  {
    key.(globalOffset := key.globalOffset[0 := key.globalOffset[0] + copyOffset[0]])
  }

  /** The loop that sets the sizes of the tensor one by one. */
  method OverwriteSize(size: array<int>, copyShape: seq<int>)
    requires size.Length == |copyShape|
    modifies size
    ensures size[..] == copyShape
  {
    for i := 0 to size.Length
      invariant size[..i] == copyShape[..i]
    {
      size[i] := copyShape[i];
    }
  }

  /** TryAdjustGlobalOffset. */
  method TryAdjustGlobalOffset(t: ATensor, copyShape: seq<int>, copyOffset: seq<int>, key: ShardKey)
    returns (adjusted: bool)
    requires t.size.Length == |t.stride| == |copyOffset| == |key.globalOffset| > 0
    modifies t, t.size, key
    ensures adjusted <==> Contiguous(old(t.Meta()), copyShape)
    ensures t.Meta() == if adjusted then Pruned(old(t.Meta()), copyShape, copyOffset) else old(t.Meta())
    ensures key.Value() == if adjusted then Moved(old(key.Value()), copyOffset) else old(key.Value())
  {
    adjusted := IsContiguousShard(t.Meta(), copyShape);
    if adjusted {
      OverwriteSize(t.size, copyShape);
      t.storageOffset := t.storageOffset + t.stride[0] * copyOffset[0];
      key.globalOffset := key.globalOffset[0 := key.globalOffset[0] + copyOffset[0]];
    }
  }

  // ---------- what the adjustment means ----------

  lemma {:induction false} DotPlus(stride: seq<int>, x: seq<int>, y: seq<int>)
    requires |stride| == |x| == |y|
    ensures Dot(stride, Plus(x, y)) == Dot(stride, x) + Dot(stride, y)
  {
    if x != [] {
      DotPlus(stride[1..], x[1..], y[1..]);
      assert Plus(x, y)[1..] == Plus(x[1..], y[1..]);
      assert stride[0] * (x[0] + y[0]) == stride[0] * x[0] + stride[0] * y[0];
    }
  }

  lemma {:induction false} DotZero(stride: seq<int>, x: seq<int>)
    requires |stride| == |x|
    requires forall i | 0 <= i < |x| :: x[i] == 0
    ensures Dot(stride, x) == 0
  {
    if x != [] {
      DotZero(stride[1..], x[1..]);
    }
  }

  /** In a row-major tensor the strided position is the flat index. */
  lemma {:induction false} RowMajorDot(size: seq<int>, stride: seq<int>, x: seq<int>)
    requires |size| == |stride| == |x|
    requires forall i | 0 <= i < |size| :: stride[i] == Product(size[i + 1..])
    ensures Dot(stride, x) == Flat(x, size)
  {
    if x != [] {
      forall i | 0 <= i < |size| - 1
        ensures stride[1..][i] == Product(size[1..][i + 1..])
      {
        assert size[1..][i + 1..] == size[i + 2..];
      }
      RowMajorDot(size[1..], stride[1..], x[1..]);
    }
  }

  /** Accepted pruning cuts in the first dimension only. */
  lemma CutsFirstDimension(t: TensorMeta, copyShape: seq<int>, copyOffset: seq<int>)
    requires Contiguous(t, copyShape) && InBounds(Box(copyOffset, copyShape), t.size)
    ensures forall i | 1 <= i < |copyOffset| :: copyOffset[i] == 0
  {
    var part := Box(copyOffset, copyShape);
    forall i | 1 <= i < |copyOffset|
      ensures copyOffset[i] == 0
    {
      assert 0 <= part.offset[i] && part.offset[i] + part.size[i] <= t.size[i];
    }
  }

  /** Pruning preserves meaning: the adjusted key is the place of the needed part, and element x of
      the pruned tensor is the element of the shard at the same global coordinate. */
  lemma PruningKeepsElements(t: TensorMeta, copyShape: seq<int>, copyOffset: seq<int>, key: ShardedKey, x: seq<int>)
    requires Contiguous(t, copyShape) && InBounds(Box(copyOffset, copyShape), t.size)
    requires |t.size| == |key.globalOffset| > 0
    requires InShape(x, copyShape)
    ensures Moved(key, copyOffset).globalOffset == Plus(key.globalOffset, copyOffset)
    ensures ElementIndex(Pruned(t, copyShape, copyOffset), x) == ElementIndex(t, Plus(copyOffset, x))
    ensures InShape(Plus(copyOffset, x), t.size)
  {
    CutsFirstDimension(t, copyShape, copyOffset);
    DotPlus(t.stride, copyOffset, x);
    DotZero(t.stride[1..], copyOffset[1..]);
    var part := Box(copyOffset, copyShape);
    forall i | 0 <= i < |x|
      ensures 0 <= copyOffset[i] + x[i] < t.size[i]
    {
      assert 0 <= part.offset[i] && part.offset[i] + part.size[i] <= t.size[i];
    }
  }

  lemma PrunedIsRowMajor(t: TensorMeta, copyShape: seq<int>, storageOffset: int)
    requires Contiguous(t, copyShape) && RowMajor(t)
    ensures RowMajor(t.(size := copyShape, storageOffset := storageOffset))
  {
    forall i | 0 <= i < |copyShape|
      ensures t.stride[i] == Product(copyShape[i + 1..])
    {
      assert copyShape[i + 1..] == t.size[i + 1..];
    }
  }

  /** A row-major tensor occupies one contiguous range of its storage, every position once. */
  lemma OccupiesRange(t: TensorMeta, p: int)
    requires RowMajor(t) && NonNegative(t.size)
    ensures t.storageOffset <= p < t.storageOffset + Product(t.size) <==>
            exists x :: InShape(x, t.size) && ElementIndex(t, x) == p
  {
    if t.storageOffset <= p < t.storageOffset + Product(t.size) {
      if !Positive(t.size) {
        ProductZero(t.size);
      }
      var x := Unravel(p - t.storageOffset, t.size);
      UnravelFlat(p - t.storageOffset, t.size);
      RowMajorDot(t.size, t.stride, x);
    }
    forall x | InShape(x, t.size)
      ensures t.storageOffset <= ElementIndex(t, x) < t.storageOffset + Product(t.size)
    {
      RowMajorDot(t.size, t.stride, x);
      FlatBounds(x, t.size);
    }
  }

  // ---------- where Get reads ----------

  /** Get's choice of the remote storage offset (in elements): the replica's own offset, unless the
      request carries a different one that is not zero. */
  function ChosenOffset(requested: int, replica: int): (chosen: int) {
    if requested != replica && requested != 0 then requested else replica
  }

  /** `known` is the offset in the metadata the request was made from, `shift` what pruning added,
      `replica` the offset at the node that is read. The choice lands on the wanted element exactly
      when that node stores the shard at the known offset, or nothing was requested beyond zero. */
  lemma ChosenOffsetExact(known: nat, shift: nat, replica: nat)
    ensures ChosenOffset(known + shift, replica) == replica + shift <==> replica == known || known + shift == 0
  {
  }
}
