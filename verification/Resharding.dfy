/** Column resharding on the sender: a shard is cut into pieces along dimension 1, as wide as an
    inference rank needs them. */
module Resharding {
  import opened Boxes
  import opened Shards
  import opened Pruning

  const COLUMN: nat := 1

  /** ReshardingInfo: the key of a piece and the columns of the source it takes. */
  datatype ReshardInfo = ReshardInfo(key: ShardedKey, start: int, length: int)

  /** A shard with a column dimension. */
  predicate HasColumns(s: Shard) {
    Shaped(s) && |s.tensor.stride| == |s.tensor.size| > COLUMN
  }

  predicate Reshardable(s: Shard, split: int) {
    HasColumns(s) && split > 0
  }

  function PieceKey(key: ShardedKey, split: int, i: int): ShardedKey
    requires |key.globalOffset| > COLUMN
  {
    key.(globalOffset := key.globalOffset[COLUMN := key.globalOffset[COLUMN] + i * split])
  }

  /** narrow: the view of `length` columns from column `start` on, in the same storage. */
  function Narrowed(t: TensorMeta, start: int, length: int): TensorMeta
    requires |t.stride| == |t.size| > COLUMN
  {
    t.(size := t.size[COLUMN := length], storageOffset := t.storageOffset + start * t.stride[COLUMN])
  }

  /** Piece i: `split` columns from column i * split on. */
  function Piece(s: Shard, split: int, i: int): Shard
    requires Reshardable(s, split)
  {
    Shard(PieceKey(s.key, split, i), Narrowed(s.tensor, i * split, split))
  }

  function PieceCount(s: Shard, split: int): (n: int)
    requires Reshardable(s, split)
    ensures n >= 0
  {
    CountNonNegative(s.tensor.size[COLUMN], split);
    s.tensor.size[COLUMN] / split
  }

  lemma CountNonNegative(n: int, d: int)
    requires n >= 0 && d > 0
    ensures n / d >= 0
  {
  }

  /** What is stored for a shard: its pieces, or the shard itself when it is narrower than one. */
  function Pieces(s: Shard, split: int): seq<Shard>
    requires Reshardable(s, split)
  {
    if PieceCount(s, split) == 0 then [s] else
      seq(PieceCount(s, split), i requires 0 <= i < PieceCount(s, split) => Piece(s, split, i))
  }

  /** ReshardTensor. Without a configured inference width there is nothing to do. */
  method ReshardTensor(s: Shard, inferTpSize: int) returns (ret: seq<ReshardInfo>)
    requires HasColumns(s)
    requires inferTpSize > 0 ==> 0 < s.key.globalShape[COLUMN] / inferTpSize
    ensures inferTpSize <= 0 ==> ret == []
    ensures inferTpSize > 0 ==>
      var split := s.key.globalShape[COLUMN] / inferTpSize;
      && |ret| == PieceCount(s, split)
      && forall i | 0 <= i < |ret| :: ret[i] == ReshardInfo(Piece(s, split, i).key, i * split, split)
  {
    ret := [];
    if inferTpSize <= 0 {
      return;
    }
    var originSize := s.tensor.size[COLUMN];
    var splitSize := s.key.globalShape[COLUMN] / inferTpSize;
    CountNonNegative(originSize, splitSize);
    for i := 0 to originSize / splitSize
      invariant |ret| == i
      invariant forall j | 0 <= j < i :: ret[j] == ReshardInfo(PieceKey(s.key, splitSize, j), j * splitSize, splitSize)
    {
      ret := ret + [ReshardInfo(PieceKey(s.key, splitSize, i), i * splitSize, splitSize)];
    }
  }

  /** The pieces that were decided on for source s. */
  predicate Decided(infos: seq<ReshardInfo>, s: Shard, inferTpSize: int) {
    && HasColumns(s)
    && if inferTpSize <= 0 then infos == [] else
         var split := s.key.globalShape[COLUMN] / inferTpSize;
         && split > 0 && |infos| == PieceCount(s, split)
         && forall i | 0 <= i < |infos| :: infos[i] == ReshardInfo(Piece(s, split, i).key, i * split, split)
  }

  /** The shards that are stored for a source. */
  function Stored(s: Shard, inferTpSize: int): seq<Shard>
    requires HasColumns(s)
    requires inferTpSize > 0 ==> 0 < s.key.globalShape[COLUMN] / inferTpSize
  {
    if inferTpSize > 0 then Pieces(s, s.key.globalShape[COLUMN] / inferTpSize) else [s]
  }

  /** The narrowing by a decision that was made for a source with as many columns. */
  method Narrow(s: Shard, infos: seq<ReshardInfo>, ghost first: Shard, inferTpSize: int) returns (stored: seq<Shard>)
    requires HasColumns(s) && Decided(infos, first, inferTpSize) && first.key == s.key
    ensures first.tensor.size[COLUMN] == s.tensor.size[COLUMN] ==>
      && (inferTpSize > 0 ==> 0 < s.key.globalShape[COLUMN] / inferTpSize)
      && stored == Stored(s, inferTpSize)
  {
    if infos == [] {
      return [s];
    }
    stored := [];
    for i := 0 to |infos|
      invariant |stored| == i
      invariant forall j | 0 <= j < i ::
        stored[j] == Shard(infos[j].key, Narrowed(s.tensor, infos[j].start, infos[j].length))
    {
      stored := stored + [Shard(infos[i].key, Narrowed(s.tensor, infos[i].start, infos[i].length))];
    }
  }

  /** The decisions made so far, by key; `firsts` are the sources they were made for. */
  class ReshardTable {
    const inferTpSize: int
    var decisions: map<ShardedKey, seq<ReshardInfo>>
    ghost var firsts: map<ShardedKey, Shard>

    ghost predicate Valid()
      reads this
    {
      && decisions.Keys == firsts.Keys
      && forall key | key in decisions :: firsts[key].key == key && Decided(decisions[key], firsts[key], inferTpSize)
    }

    constructor (inferTpSize: int)
      ensures Valid() && this.inferTpSize == inferTpSize && firsts == map[]
    {
      this.inferTpSize := inferTpSize;
      decisions, firsts := map[], map[];
    }

    /** GetOrCreateLocalReshardTensors. A decision is made once per key, so the pieces are those of this
        source whenever it has as many columns as the first one under its key. */
    method LocalReshardTensors(s: Shard, reshardKey: bool, bytes: nat, smallLimit: nat) returns (stored: seq<Shard>)
      requires Valid() && Shaped(s)
      requires reshardKey && bytes > smallLimit ==> HasColumns(s)
      requires reshardKey && bytes > smallLimit && inferTpSize > 0 ==> 0 < s.key.globalShape[COLUMN] / inferTpSize
      modifies this
      ensures Valid()
      ensures !(reshardKey && bytes > smallLimit) ==> stored == [s] && firsts == old(firsts)
      ensures reshardKey && bytes > smallLimit ==>
        && firsts == (if s.key in old(firsts) then old(firsts) else old(firsts)[s.key := s])
        && (firsts[s.key].tensor.size[COLUMN] == s.tensor.size[COLUMN] ==> stored == Stored(s, inferTpSize))
    {
      if !reshardKey || bytes <= smallLimit {
        return [s];
      }
      if s.key !in decisions {
        var infos := ReshardTensor(s, inferTpSize);
        decisions, firsts := decisions[s.key := infos], firsts[s.key := s];
      }
      stored := Narrow(s, decisions[s.key], firsts[s.key], inferTpSize);
    }
  }

  // ---------- pieces tile the source ----------

  lemma DotAt(stride: seq<int>, x: seq<int>, d: int)
    requires |stride| == |x| > COLUMN
    ensures Dot(stride, x[COLUMN := x[COLUMN] + d]) == Dot(stride, x) + d * stride[COLUMN]
  {
    var shift := seq(|x|, i => if i == COLUMN then d else 0);
    assert x[COLUMN := x[COLUMN] + d] == Plus(x, shift);
    DotPlus(stride, x, shift);
    assert Dot(stride, shift) == stride[0] * shift[0] + Dot(stride[1..], shift[1..]);
    assert Dot(stride[1..], shift[1..]) == stride[1..][0] * shift[1..][0] + Dot(stride[1..][1..], shift[1..][1..]);
    DotZero(stride[1..][1..], shift[1..][1..]);
  }

  /** Element x of piece i is the source's element y, with the column moved by i * split: it is inside the
      source, stored at the same place, and has the same global coordinate. */
  lemma PieceElement(s: Shard, split: int, i: int, x: seq<int>)
    requires Reshardable(s, split) && 0 <= i < PieceCount(s, split) && InShape(x, Piece(s, split, i).tensor.size)
    ensures var y := x[COLUMN := x[COLUMN] + i * split];
            && InShape(y, s.tensor.size)
            && ElementIndex(Piece(s, split, i).tensor, x) == ElementIndex(s.tensor, y)
            && Plus(Piece(s, split, i).key.globalOffset, x) == Plus(s.key.globalOffset, y)
  {
    DotAt(s.tensor.stride, x, i * split);
    PieceEnds(s, split, i);
    MulMono(0, i, split);
    var size := Piece(s, split, i).tensor.size;
    assert forall j | 0 <= j < |x| && j != COLUMN :: size[j] == s.tensor.size[j];
  }

  lemma PieceContains(s: Shard, split: int, i: int, c: seq<int>)
    requires Reshardable(s, split) && 0 <= i < PieceCount(s, split)
    ensures Contains(BoxOf(Piece(s, split, i)), c) <==>
      && Contains(BoxOf(s), c)
      && i * split <= c[COLUMN] - s.key.globalOffset[COLUMN] < i * split + split
  {
    var piece, box := BoxOf(Piece(s, split, i)), BoxOf(s);
    PieceEnds(s, split, i);
    MulMono(0, i, split);
    if Contains(piece, c) {
      forall d | 0 <= d < |c|
        ensures box.offset[d] <= c[d] < box.offset[d] + box.size[d]
      {
        assert piece.offset[d] <= c[d] < piece.offset[d] + piece.size[d];
      }
      assert piece.offset[COLUMN] <= c[COLUMN] < piece.offset[COLUMN] + piece.size[COLUMN];
    } else if Contains(box, c) && i * split <= c[COLUMN] - s.key.globalOffset[COLUMN] < i * split + split {
      forall d | 0 <= d < |c|
        ensures piece.offset[d] <= c[d] < piece.offset[d] + piece.size[d]
      {
        assert box.offset[d] <= c[d] < box.offset[d] + box.size[d];
      }
      assert false;
    }
  }

  /** A piece ends inside the source. */
  lemma PieceEnds(s: Shard, split: int, i: int)
    requires Reshardable(s, split) && 0 <= i < PieceCount(s, split)
    ensures i * split + split <= s.tensor.size[COLUMN]
  {
    var n := PieceCount(s, split);
    MulMono(i + 1, n, split);
    assert (i + 1) * split == i * split + split;
    assert n * split + s.tensor.size[COLUMN] % split == s.tensor.size[COLUMN];
  }

  lemma PiecesDisjoint(s: Shard, split: int, i: int, j: int)
    requires Reshardable(s, split) && 0 <= i < j < PieceCount(s, split)
    ensures Disjoint(BoxOf(Piece(s, split, i)), BoxOf(Piece(s, split, j)))
  {
    MulMono(i + 1, j, split);
    assert (i + 1) * split == i * split + split;
    forall c
      ensures !(Contains(BoxOf(Piece(s, split, i)), c) && Contains(BoxOf(Piece(s, split, j)), c))
    {
      PieceContains(s, split, i, c);
      PieceContains(s, split, j, c);
    }
  }

  /** The stored shards hold coordinate c. */
  ghost predicate Held(shards: seq<Shard>, c: seq<int>) {
    exists i | 0 <= i < |shards| :: Contains(BoxOf(shards[i]), c)
  }

  /** Nothing outside the source is stored. */
  lemma PiecesInside(s: Shard, split: int, c: seq<int>)
    requires Reshardable(s, split) && Held(Pieces(s, split), c)
    ensures Contains(BoxOf(s), c)
  {
    var i :| 0 <= i < |Pieces(s, split)| && Contains(BoxOf(Pieces(s, split)[i]), c);
    if PieceCount(s, split) > 0 {
      PieceContains(s, split, i, c);
    }
  }

  /** The columns of the source split evenly, or it is narrower than a piece. */
  predicate Even(s: Shard, split: int)
    requires Reshardable(s, split)
  {
    s.tensor.size[COLUMN] % split == 0 || s.tensor.size[COLUMN] < split
  }

  lemma EvenPiecesCover(s: Shard, split: int, c: seq<int>)
    requires Reshardable(s, split) && Even(s, split) && Contains(BoxOf(s), c)
    ensures Held(Pieces(s, split), c)
  {
    var n := PieceCount(s, split);
    assert n * split + s.tensor.size[COLUMN] % split == s.tensor.size[COLUMN];
    assert BoxOf(s).offset[COLUMN] <= c[COLUMN] < BoxOf(s).offset[COLUMN] + BoxOf(s).size[COLUMN];
    if n == 0 {
      assert Contains(BoxOf(Pieces(s, split)[0]), c);
    } else {
      if s.tensor.size[COLUMN] < split {
        MulMono(1, n, split);
      }
      var i, m := DivisionBelow(c[COLUMN] - s.key.globalOffset[COLUMN], n, split);
      PieceContains(s, split, i, c);
      assert Contains(BoxOf(Pieces(s, split)[i]), c);
    }
  }

  /** Columns behind the last whole piece are dropped. */
  lemma UnevenPiecesMiss(s: Shard, split: int) returns (c: seq<int>)
    requires Reshardable(s, split) && !Even(s, split) && Positive(s.tensor.size)
    ensures Contains(BoxOf(s), c) && !Held(Pieces(s, split), c)
  {
    var n := PieceCount(s, split);
    assert n * split + s.tensor.size[COLUMN] % split == s.tensor.size[COLUMN];
    MulMono(0, n, split);
    c := s.key.globalOffset[COLUMN := s.key.globalOffset[COLUMN] + n * split];
    forall i | 0 <= i < |Pieces(s, split)|
      ensures !Contains(BoxOf(Pieces(s, split)[i]), c)
    {
      PieceContains(s, split, i, c);
      MulMono(i + 1, n, split);
      assert (i + 1) * split == i * split + split;
    }
  }

  /** Resharding keeps a source whole if and only if its columns split evenly or it is not split. */
  lemma ReshardingIsExact(s: Shard, split: int)
    requires Reshardable(s, split) && Positive(s.tensor.size)
    ensures (forall c :: Held(Pieces(s, split), c) <==> Contains(BoxOf(s), c)) <==> Even(s, split)
  {
    if Even(s, split) {
      forall c
        ensures Held(Pieces(s, split), c) <==> Contains(BoxOf(s), c)
      {
        if Contains(BoxOf(s), c) {
          EvenPiecesCover(s, split, c);
        } else if Held(Pieces(s, split), c) {
          PiecesInside(s, split, c);
          assert false;
        }
      }
    } else {
      var c := UnevenPiecesMiss(s, split);
    }
  }

  // ---------- a whole shard set ----------

  function AllPieces(shards: seq<Shard>, split: int): seq<Shard>
    requires forall i | 0 <= i < |shards| :: Reshardable(shards[i], split)
  {
    if shards == [] then [] else AllPieces(shards[..|shards| - 1], split) + Pieces(shards[|shards| - 1], split)
  }

  lemma HeldConcat(a: seq<Shard>, b: seq<Shard>, c: seq<int>)
    ensures Held(a + b, c) <==> Held(a, c) || Held(b, c)
  {
    if Held(b, c) {
      var i :| 0 <= i < |b| && Contains(BoxOf(b[i]), c);
      assert (a + b)[|a| + i] == b[i];
    }
    if Held(a, c) {
      var i :| 0 <= i < |a| && Contains(BoxOf(a[i]), c);
      assert (a + b)[i] == a[i];
    }
  }

  /** The pieces of an evenly split shard set hold exactly what the shards hold. */
  lemma {:induction false} AllPiecesHold(shards: seq<Shard>, split: int, c: seq<int>)
    requires forall i | 0 <= i < |shards| :: Reshardable(shards[i], split)
    ensures Held(AllPieces(shards, split), c) ==> Held(shards, c)
    ensures Held(shards, c) && (forall i | 0 <= i < |shards| :: Even(shards[i], split)) ==> Held(AllPieces(shards, split), c)
  {
    if shards != [] {
      var front, last := shards[..|shards| - 1], shards[|shards| - 1];
      assert forall i | 0 <= i < |front| :: front[i] == shards[i];
      AllPiecesHold(front, split, c);
      HeldConcat(AllPieces(front, split), Pieces(last, split), c);
      assert front + [last] == shards;
      HeldConcat(front, [last], c);
      assert Held([last], c) <==> Contains(BoxOf(last), c) by { assert [last][0] == last; }
      if Held(Pieces(last, split), c) {
        PiecesInside(last, split, c);
      }
      if Contains(BoxOf(last), c) && Even(last, split) {
        EvenPiecesCover(last, split, c);
      }
    }
  }

  /** Covering survives resharding. */
  lemma ReshardedCovers(shards: seq<Shard>, split: int, target: Shard)
    requires forall i | 0 <= i < |shards| :: Reshardable(shards[i], split) && Even(shards[i], split)
    requires Covers(shards, target)
    ensures Covers(AllPieces(shards, split), target)
  {
    forall c | Contains(BoxOf(target), c)
      ensures Held(AllPieces(shards, split), c)
    {
      assert Held(shards, c);
      AllPiecesHold(shards, split, c);
    }
  }

  /** Disjointness survives resharding, even or not. */
  lemma {:induction false} ReshardedDisjoint(shards: seq<Shard>, split: int)
    requires forall i | 0 <= i < |shards| :: Reshardable(shards[i], split)
    requires PairwiseDisjoint(shards)
    ensures PairwiseDisjoint(AllPieces(shards, split))
  {
    if shards != [] {
      var front, last := shards[..|shards| - 1], shards[|shards| - 1];
      assert forall i | 0 <= i < |front| :: front[i] == shards[i];
      ReshardedDisjoint(front, split);
      var a, b := AllPieces(front, split), Pieces(last, split);
      forall i, j | 0 <= i < j < |a + b|
        ensures Disjoint(BoxOf((a + b)[i]), BoxOf((a + b)[j]))
      {
        if j < |a| {
          assert Disjoint(BoxOf(a[i]), BoxOf(a[j]));
        } else if i >= |a| {
          PiecesDisjoint(last, split, i - |a|, j - |a|);
        } else {
          ApartFromFront(shards, split, i, j - |a|);
        }
      }
    }
  }

  lemma ApartFromFront(shards: seq<Shard>, split: int, i: nat, j: nat)
    requires shards != [] && PairwiseDisjoint(shards)
    requires forall i | 0 <= i < |shards| :: Reshardable(shards[i], split)
    requires i < |AllPieces(shards[..|shards| - 1], split)| && j < |Pieces(shards[|shards| - 1], split)|
    ensures Disjoint(BoxOf(AllPieces(shards[..|shards| - 1], split)[i]), BoxOf(Pieces(shards[|shards| - 1], split)[j]))
  {
    var front, last := shards[..|shards| - 1], shards[|shards| - 1];
    var a, b := AllPieces(front, split), Pieces(last, split);
    forall c | Contains(BoxOf(a[i]), c) && Contains(BoxOf(b[j]), c)
      ensures false
    {
      AllPiecesHold(front, split, c);
      PiecesInside(last, split, c);
    }
  }
}
