/** The copy plan of a read: which part of which candidate goes to which part of the target. */
module CopyPlan {
  import opened Boxes
  import opened Shards
  import opened Coverage

  datatype CopyOperation = CopyOperation(
    candidateIndex: nat, srcOffset: seq<int>, targetOffset: seq<int>, copyShape: seq<int>)

  datatype Verdict =
    | Valid
    | NoCandidates
    | TargetDimensions
    | TargetTooLarge
    | CandidateDimensions
    | CandidateDtype
    | CandidateShape
    | NotCovered

  /** The target fits the global shape; what the loop over dimensions checks. */
  predicate TargetFits(target: Shard)
    requires |target.key.globalOffset| == |target.key.globalShape| == |target.tensor.size|
  {
    forall i | 0 <= i < |target.tensor.size| ::
      target.tensor.size[i] <= target.key.globalShape[i] - target.key.globalOffset[i]
  }

  /** The candidate is a shard of a tensor like the target's. */
  predicate Matches(c: Shard, target: Shard) {
    c.key.globalShape == target.key.globalShape && c.tensor.dtype == target.tensor.dtype
  }

  predicate SameDimensions(c: Shard, target: Shard) {
    |c.key.globalShape| == |target.key.globalShape|
  }

  /** Candidate k is the first that does not match, and v says why: a different number of dimensions
      goes before a different type, and that before a different shape. */
  predicate FirstFault(candidates: seq<Shard>, target: Shard, k: int, v: Verdict) {
    && 0 <= k < |candidates| && !Matches(candidates[k], target)
    && (forall j | 0 <= j < k :: Matches(candidates[j], target))
    && (v.CandidateDimensions? <==> !SameDimensions(candidates[k], target))
    && (v.CandidateDtype? <==>
          SameDimensions(candidates[k], target) && candidates[k].tensor.dtype != target.tensor.dtype)
    && (v.CandidateShape? <==>
          SameDimensions(candidates[k], target) && candidates[k].tensor.dtype == target.tensor.dtype)
  }

  /** The first candidate with a fault decides. */
  method CheckCandidates(candidates: seq<Shard>, target: Shard) returns (v: Verdict)
    ensures v.Valid? <==> forall k | 0 <= k < |candidates| :: Matches(candidates[k], target)
    ensures !v.Valid? ==> exists k :: FirstFault(candidates, target, k, v)
  {
    for k := 0 to |candidates|
      invariant forall j | 0 <= j < k :: Matches(candidates[j], target)
    {
      var shape := candidates[k].key.globalShape;
      if |shape| != |target.key.globalShape| {
        assert FirstFault(candidates, target, k, CandidateDimensions);
        return CandidateDimensions;
      }
      if candidates[k].tensor.dtype != target.tensor.dtype {
        assert FirstFault(candidates, target, k, CandidateDtype);
        return CandidateDtype;
      }
      for i := 0 to |shape|
        invariant forall j | 0 <= j < i :: shape[j] == target.key.globalShape[j]
      {
        if shape[i] != target.key.globalShape[i] {
          assert FirstFault(candidates, target, k, CandidateShape);
          return CandidateShape;
        }
      }
    }
    return Valid;
  }

  /** The checks before those of the candidates. */
  predicate TargetPasses(candidates: seq<Shard>, target: Shard)
    requires |target.key.globalOffset| == |target.key.globalShape|
  {
    candidates != [] && |target.key.globalShape| == |target.tensor.size| && TargetFits(target)
  }

  ghost predicate AllInside(candidates: seq<Shard>) {
    forall i | 0 <= i < |candidates| :: InsideGlobal(candidates[i])
  }

  /** ValidateCandidateFilterParams. That candidates lie inside the tensor they name is not checked,
      because the code's own check of that is commented out; without it Valid means what the interval
      check means, and with it that the candidates cover the target. */
  method ValidateCandidateFilterParams(candidates: seq<Shard>, target: Shard) returns (v: Verdict)
    requires AllShaped(candidates)
    requires |target.key.globalOffset| == |target.key.globalShape|
    requires NonNegative(target.key.globalOffset) && NonNegative(target.tensor.size)
    ensures v.NoCandidates? <==> candidates == []
    ensures v.TargetDimensions? <==> candidates != [] && |target.key.globalShape| != |target.tensor.size|
    ensures v.TargetTooLarge? <==>
            candidates != [] && |target.key.globalShape| == |target.tensor.size| && !TargetFits(target)
    ensures v.CandidateDimensions? || v.CandidateDtype? || v.CandidateShape? ==>
            && TargetPasses(candidates, target)
            && exists k :: FirstFault(candidates, target, k, v)
    ensures v.Valid? || v.NotCovered? <==>
            TargetPasses(candidates, target) && forall k | 0 <= k < |candidates| :: Matches(candidates[k], target)
    ensures v.Valid? || v.NotCovered? ==> Shaped(target) && (v.Valid? <==> FlatAccepts(candidates, target))
    ensures AllInside(candidates) && v.Valid? ==>
            candidates != [] && ShardsOfSame(candidates, target) && Covers(candidates, target)
    ensures v.Valid? ==> forall i | 0 <= i < |candidates| :: candidates[i].tensor.dtype == target.tensor.dtype
    ensures Positive(target.tensor.size) && candidates != [] && ShardsOfSame(candidates, target)
            && Covers(candidates, target)
            && (forall i | 0 <= i < |candidates| :: candidates[i].tensor.dtype == target.tensor.dtype)
            ==> v.Valid?
    ensures AllInside(candidates) && v.NotCovered? && Positive(target.tensor.size) ==> !Covers(candidates, target)
  {
    if candidates == [] {
      return NoCandidates;
    }
    if |target.key.globalShape| != |target.tensor.size| {
      return TargetDimensions;
    }
    for i := 0 to |target.key.globalShape|
      invariant forall j | 0 <= j < i :: target.tensor.size[j] <= target.key.globalShape[j] - target.key.globalOffset[j]
    {
      if target.tensor.size[i] > target.key.globalShape[i] - target.key.globalOffset[i] {
        assert !InsideGlobal(target) by {
          assert BoxOf(target).offset[i] + BoxOf(target).size[i] > target.key.globalShape[i];
        }
        return TargetTooLarge;
      }
    }
    v := CheckCandidates(candidates, target);
    if !v.Valid? {
      return;
    }
    var accepted := CheckCandidatesCoverage(candidates, target);
    if AllInside(candidates) {
      AllOfSame(candidates, target);
      if accepted {
        CoverageSound(candidates, target);
      } else if Positive(target.tensor.size) {
        CoverageExact(candidates, target);
      }
    }
    return if accepted then Valid else NotCovered;
  }

  lemma AllOfSame(candidates: seq<Shard>, target: Shard)
    requires AllInside(candidates) && forall i | 0 <= i < |candidates| :: Matches(candidates[i], target)
    requires |target.key.globalOffset| == |target.key.globalShape| == |target.tensor.size| && TargetFits(target)
    requires NonNegative(target.key.globalOffset) && NonNegative(target.tensor.size)
    ensures ShardsOfSame(candidates, target)
  {
  }

  /** The operation copies exactly the common part of its candidate and the target. */
  predicate CopiesOverlap(op: CopyOperation, candidates: seq<Shard>, target: Shard)
    requires ShardsOfSame(candidates, target)
  {
    && op.candidateIndex < |candidates|
    && |op.srcOffset| == |op.targetOffset| == |op.copyShape| == |target.tensor.size|
    && Positive(op.copyShape)
    && var both := Intersect(BoxOf(candidates[op.candidateIndex]), BoxOf(target));
    && both.size == op.copyShape
    && both.offset == Plus(candidates[op.candidateIndex].key.globalOffset, op.srcOffset)
    && both.offset == Plus(target.key.globalOffset, op.targetOffset)
  }

  /** One operation per candidate that shares a coordinate with the target, in candidate order. */
  ghost predicate IsPlan(ops: seq<CopyOperation>, candidates: seq<Shard>, target: Shard)
    requires ShardsOfSame(candidates, target)
  {
    && (forall k | 0 <= k < |ops| :: CopiesOverlap(ops[k], candidates, target))
    && (forall j, k | 0 <= j < k < |ops| :: ops[j].candidateIndex < ops[k].candidateIndex)
    && (forall i, c | 0 <= i < |candidates| && Contains(BoxOf(candidates[i]), c) && Contains(BoxOf(target), c) ::
          exists k | 0 <= k < |ops| :: ops[k].candidateIndex == i)
  }

  /** The per-dimension loops that cut one box with another: not found as soon as a dimension has
      no overlap, otherwise the common part as an offset in each box and a shape. */
  method Overlap(cand: Box, goal: Box) returns (found: bool, src: seq<int>, dst: seq<int>, shape: seq<int>)
    requires |cand.offset| == |cand.size| == |goal.offset| == |goal.size|
    ensures !found ==> Disjoint(cand, goal)
    ensures found ==> |src| == |dst| == |shape| == |cand.offset| && Positive(shape)
    ensures found ==> shape == Intersect(cand, goal).size
    ensures found ==> Intersect(cand, goal).offset == Plus(cand.offset, src) == Plus(goal.offset, dst)
  {
    ghost var both := Intersect(cand, goal);
    var dims := |cand.offset|;
    src, dst, shape := [], [], [];
    for i := 0 to dims
      invariant |src| == |dst| == |shape| == i
      invariant forall j | 0 <= j < i ::
        && src[j] == both.offset[j] - cand.offset[j]
        && dst[j] == both.offset[j] - goal.offset[j]
        && shape[j] == both.size[j] && shape[j] > 0
    {
      var start := Max(cand.offset[i], goal.offset[i]);
      var end := Min(cand.offset[i] + cand.size[i], goal.offset[i] + goal.size[i]);
      if start >= end {
        assert both.size[i] <= 0;
        return false, [], [], [];
      }
      src := src + [start - cand.offset[i]];
      dst := dst + [start - goal.offset[i]];
      shape := shape + [end - start];
    }
    found := true;
    assert both.offset == Plus(cand.offset, src) == Plus(goal.offset, dst) && both.size == shape;
  }

  /** FindCoveringCandidatesUnsafe. */
  method FindCoveringCandidatesUnsafe(candidates: seq<Shard>, target: Shard) returns (ops: seq<CopyOperation>)
    requires ShardsOfSame(candidates, target)
    ensures IsPlan(ops, candidates, target)
  {
    ops := [];
    for index := 0 to |candidates|
      invariant forall k | 0 <= k < |ops| :: CopiesOverlap(ops[k], candidates, target) && ops[k].candidateIndex < index
      invariant forall j, k | 0 <= j < k < |ops| :: ops[j].candidateIndex < ops[k].candidateIndex
      invariant forall i, c | 0 <= i < index && Contains(BoxOf(candidates[i]), c) && Contains(BoxOf(target), c) ::
        exists k | 0 <= k < |ops| :: ops[k].candidateIndex == i
    {
      var found, src, dst, shape := Overlap(BoxOf(candidates[index]), BoxOf(target));
      if found {
        var op := CopyOperation(index, src, dst, shape);
        assert CopiesOverlap(op, candidates, target);
        ghost var before := ops;
        ops := ops + [op];
        forall i, c | 0 <= i <= index && Contains(BoxOf(candidates[i]), c) && Contains(BoxOf(target), c)
          ensures exists k | 0 <= k < |ops| :: ops[k].candidateIndex == i
        {
          if i < index {
            var k :| 0 <= k < |before| && before[k].candidateIndex == i;
            assert ops[k] == before[k];
          } else {
            assert ops[|before|].candidateIndex == i;
          }
        }
      }
    }
  }

  // ---------- zero redundancy ----------

  /** Where an operation writes, in the target's own coordinates. */
  function Written(op: CopyOperation): Box {
    Box(op.targetOffset, op.copyShape)
  }

  /** Where an operation reads, in the candidate's own coordinates. */
  function Fetched(op: CopyOperation): Box {
    Box(op.srcOffset, op.copyShape)
  }

  /** Reads stay inside the candidate, writes inside the target. */
  lemma CopyInBounds(op: CopyOperation, candidates: seq<Shard>, target: Shard)
    requires ShardsOfSame(candidates, target) && CopiesOverlap(op, candidates, target)
    ensures InBounds(Fetched(op), candidates[op.candidateIndex].tensor.size)
    ensures InBounds(Written(op), target.tensor.size)
  {
    var cand := candidates[op.candidateIndex];
    var both := Intersect(BoxOf(cand), BoxOf(target));
    forall i | 0 <= i < |op.copyShape|
      ensures 0 <= op.srcOffset[i] && op.srcOffset[i] + op.copyShape[i] <= cand.tensor.size[i]
      ensures 0 <= op.targetOffset[i] && op.targetOffset[i] + op.copyShape[i] <= target.tensor.size[i]
      ensures 0 <= op.copyShape[i]
    {
      assert both.offset[i] == cand.key.globalOffset[i] + op.srcOffset[i];
      assert both.offset[i] == target.key.globalOffset[i] + op.targetOffset[i];
      assert both.size[i] == op.copyShape[i];
    }
  }

  /** An operation writes the target element at t exactly when its candidate holds that element. */
  lemma WrittenExact(op: CopyOperation, candidates: seq<Shard>, target: Shard, t: seq<int>)
    requires ShardsOfSame(candidates, target) && CopiesOverlap(op, candidates, target)
    requires InShape(t, target.tensor.size)
    ensures Contains(Written(op), t) <==>
            Contains(BoxOf(candidates[op.candidateIndex]), Plus(target.key.globalOffset, t))
  {
    CutExact(BoxOf(candidates[op.candidateIndex]), BoxOf(target), op.targetOffset, t);
  }

  /** The common part, seen from `goal`: element t of it belongs to `cand` too. */
  lemma CutExact(cand: Box, goal: Box, dst: seq<int>, t: seq<int>)
    requires |cand.offset| == |cand.size| == |goal.offset| == |goal.size| == |dst|
    requires Intersect(cand, goal).offset == Plus(goal.offset, dst)
    requires InShape(t, goal.size)
    ensures Contains(Box(dst, Intersect(cand, goal).size), t) <==> Contains(cand, Plus(goal.offset, t))
  {
    var c := Plus(goal.offset, t);
    var both := Intersect(cand, goal);
    var part := Box(dst, both.size);
    assert Contains(goal, c);
    assert Contains(both, c) <==> Contains(cand, c);
    if Contains(part, t) {
      forall i | 0 <= i < |c|
        ensures both.offset[i] <= c[i] < both.offset[i] + both.size[i]
      {
        assert part.offset[i] <= t[i] < part.offset[i] + part.size[i];
      }
    }
    if Contains(both, c) {
      forall i | 0 <= i < |t|
        ensures part.offset[i] <= t[i] < part.offset[i] + part.size[i]
      {
        assert both.offset[i] <= c[i] < both.offset[i] + both.size[i];
      }
    }
  }

  /** No target element is written twice when the candidates do not overlap. */
  lemma WritesDisjoint(ops: seq<CopyOperation>, candidates: seq<Shard>, target: Shard, j: nat, k: nat)
    requires ShardsOfSame(candidates, target) && IsPlan(ops, candidates, target)
    requires PairwiseDisjoint(candidates)
    requires j < k < |ops|
    ensures Disjoint(Written(ops[j]), Written(ops[k]))
  {
    forall t | Contains(Written(ops[j]), t) && Contains(Written(ops[k]), t)
      ensures false
    {
      CopyInBounds(ops[j], candidates, target);
      SubBoxInShape(Written(ops[j]), target.tensor.size, t);
      WrittenExact(ops[j], candidates, target, t);
      WrittenExact(ops[k], candidates, target, t);
    }
  }

  lemma SubBoxInShape(b: Box, shape: seq<int>, t: seq<int>)
    requires InBounds(b, shape) && Contains(b, t)
    ensures InShape(t, shape)
  {
    forall i | 0 <= i < |t|
      ensures 0 <= t[i] < shape[i]
    {
      assert b.offset[i] <= t[i] < b.offset[i] + b.size[i];
    }
  }

  /** Every target element is written when the candidates cover the target. */
  lemma WritesEverything(ops: seq<CopyOperation>, candidates: seq<Shard>, target: Shard, t: seq<int>)
    requires ShardsOfSame(candidates, target) && IsPlan(ops, candidates, target)
    requires Covers(candidates, target) && InShape(t, target.tensor.size)
    ensures exists k | 0 <= k < |ops| :: Contains(Written(ops[k]), t)
  {
    var c := Plus(target.key.globalOffset, t);
    assert Contains(BoxOf(target), c);
    var i :| 0 <= i < |candidates| && Contains(BoxOf(candidates[i]), c);
    var k :| 0 <= k < |ops| && ops[k].candidateIndex == i;
    WrittenExact(ops[k], candidates, target, t);
  }

  ghost function WrittenBoxes(ops: seq<CopyOperation>): seq<Box> {
    seq(|ops|, k requires 0 <= k < |ops| => Written(ops[k]))
  }

  /** Zero redundancy: the volumes of the copies add up to the target's element count. */
  lemma ZeroRedundancy(ops: seq<CopyOperation>, candidates: seq<Shard>, target: Shard)
    requires ShardsOfSame(candidates, target) && IsPlan(ops, candidates, target)
    requires PairwiseDisjoint(candidates) && Covers(candidates, target)
    ensures Volume(WrittenBoxes(ops)) == Product(target.tensor.size)
  {
    forall j, k | 0 <= j < k < |ops|
      ensures Disjoint(Written(ops[j]), Written(ops[k]))
    {
      WritesDisjoint(ops, candidates, target, j, k);
    }
    assert forall k | 0 <= k < |ops| :: CopiesOverlap(ops[k], candidates, target);
    forall t
      ensures Contains(Whole(target), t) <==> exists k | 0 <= k < |ops| :: Contains(WrittenBoxes(ops)[k], t)
    {
      WrittenIsWhole(ops, candidates, target, t);
    }
    TilingVolume(WrittenBoxes(ops), Whole(target));
  }

  /** The target in its own coordinates. */
  ghost function Whole(target: Shard): (b: Box)
    ensures |b.offset| == |b.size|
  {
    Box(seq(|target.tensor.size|, i => 0), target.tensor.size)
  }

  lemma WrittenIsWhole(ops: seq<CopyOperation>, candidates: seq<Shard>, target: Shard, t: seq<int>)
    requires ShardsOfSame(candidates, target) && IsPlan(ops, candidates, target)
    requires Covers(candidates, target)
    ensures Contains(Whole(target), t) <==> exists k | 0 <= k < |ops| :: Contains(WrittenBoxes(ops)[k], t)
  {
    WholeInShape(target, t);
    if InShape(t, target.tensor.size) {
      WritesEverything(ops, candidates, target, t);
      var k :| 0 <= k < |ops| && Contains(Written(ops[k]), t);
      assert Contains(WrittenBoxes(ops)[k], t);
    }
    if k :| 0 <= k < |ops| && Contains(WrittenBoxes(ops)[k], t) {
      CopyInBounds(ops[k], candidates, target);
      SubBoxInShape(Written(ops[k]), target.tensor.size, t);
    }
  }

  lemma WholeInShape(target: Shard, t: seq<int>)
    ensures Contains(Whole(target), t) <==> InShape(t, target.tensor.size)
  {
    if Contains(Whole(target), t) {
      forall i | 0 <= i < |t|
        ensures 0 <= t[i] < target.tensor.size[i]
      {
        assert Whole(target).offset[i] <= t[i] < Whole(target).offset[i] + Whole(target).size[i];
      }
    }
  }
}
