/** The coverage check of a read: boxes are flattened to row intervals, the candidates'
    intervals are sorted and merged, and every target row must lie in one merged interval. */
module Coverage {
  import opened Boxes
  import opened Shards

  datatype Interval = Interval(start: int, end: int)

  predicate Proper(s: seq<Interval>) {
    forall i | 0 <= i < |s| :: s[i].start <= s[i].end
  }

  predicate Sorted(s: seq<Interval>) {
    forall i, j | 0 <= i < j < |s| :: s[i].start <= s[j].start
  }

  /** Position p lies in one of the half-open intervals. */
  predicate InUnion(p: int, s: seq<Interval>) {
    exists i | 0 <= i < |s| :: s[i].start <= p < s[i].end
  }

  /** Position p lies in or right behind one of the intervals. */
  predicate Touches(p: int, s: seq<Interval>) {
    exists i | 0 <= i < |s| :: s[i].start <= p <= s[i].end
  }

  // ---------- rows of a shard ----------

  function RowCount(s: Shard): int
    requires Shaped(s) && s.tensor.size != []
  {
    Product(s.tensor.size[..|s.tensor.size| - 1])
  }

  function RowLength(s: Shard): int
    requires s.tensor.size != []
  {
    s.tensor.size[|s.tensor.size| - 1]
  }

  /** Global coordinate where row k of the shard starts. */
  function RowCoord(s: Shard, k: int): (c: seq<int>)
    requires Shaped(s) && s.tensor.size != [] && 0 <= k < RowCount(s)
    ensures |c| == |s.tensor.size|
  {
    var n := |s.tensor.size| - 1;
    PositiveFront(s);
    Plus(Unravel(k, s.tensor.size[..n]), s.key.globalOffset[..n]) + [s.key.globalOffset[n]]
  }

  lemma PositiveFront(s: Shard)
    requires Shaped(s) && s.tensor.size != [] && 0 < RowCount(s)
    ensures Positive(s.tensor.size[..|s.tensor.size| - 1])
  {
    var front := s.tensor.size[..|s.tensor.size| - 1];
    if !Positive(front) {
      ProductZero(front);
    }
  }

  function Row(s: Shard, k: int): (r: Interval)
    requires Shaped(s) && s.tensor.size != [] && 0 <= k < RowCount(s)
  {
    var start := Flat(RowCoord(s, k), s.key.globalShape);
    Interval(start, start + RowLength(s))
  }

  /** The flat intervals of a shard, one per row; a scalar is the single interval [0, 1). */
  function Rows(s: Shard): (r: seq<Interval>)
    requires Shaped(s)
    ensures Proper(r)
  {
    if s.tensor.size == [] then [Interval(0, 1)] else
      ProductNonNegative(s.tensor.size[..|s.tensor.size| - 1]);
      seq(RowCount(s), k requires 0 <= k < RowCount(s) => Row(s, k))
  }

  lemma RowsAt(s: Shard)
    requires Shaped(s) && s.tensor.size != []
    ensures |Rows(s)| == RowCount(s)
  {
    ProductNonNegative(s.tensor.size[..|s.tensor.size| - 1]);
  }

  function Concat(lists: seq<seq<Interval>>): (r: seq<Interval>)
    requires forall i | 0 <= i < |lists| :: Proper(lists[i])
    ensures Proper(r)
  {
    if lists == [] then [] else
      AppendProper(Concat(lists[..|lists| - 1]), lists[|lists| - 1]);
      Concat(lists[..|lists| - 1]) + lists[|lists| - 1]
  }

  lemma AppendProper(a: seq<Interval>, b: seq<Interval>)
    requires Proper(a) && Proper(b)
    ensures Proper(a + b)
  {
  }

  function RowsOf(shards: seq<Shard>): (r: seq<seq<Interval>>)
    requires AllShaped(shards)
    ensures forall i | 0 <= i < |r| :: Proper(r[i])
  {
    seq(|shards|, i requires 0 <= i < |shards| => Rows(shards[i]))
  }

  /** The intervals of all candidates. */
  function AllRows(shards: seq<Shard>): (r: seq<Interval>)
    requires AllShaped(shards)
    ensures Proper(r)
  {
    Concat(RowsOf(shards))
  }

  /** The div/mod loop that turns a row number into the coordinates where the row starts. */
  method RowCoordinates(size: seq<int>, offset: seq<int>, row: int) returns (coords: seq<int>)
    requires Positive(size) && |size| == |offset|
    ensures coords == Plus(Unravel(row, size), offset)
  {
    coords := [];
    var temp := row;
    var i := |size|;
    assert size[..i] == size && offset[..i] == offset;
    while i > 0
      invariant 0 <= i <= |size| && Positive(size[..i])
      invariant Plus(Unravel(row, size), offset) == Plus(Unravel(temp, size[..i]), offset[..i]) + coords
    {
      i := i - 1;
      assert size[..i + 1] == size[..i] + [size[i]] && offset[..i + 1] == offset[..i] + [offset[i]];
      CoordStep(temp, size[..i], size[i], offset[..i], offset[i], coords);
      coords := [temp % size[i] + offset[i]] + coords;
      temp := temp / size[i];
    }
  }

  /** One turn of the loop: dimension d is split off and put in front of the coordinates found so far. */
  lemma CoordStep(n: int, shape: seq<int>, d: int, offset: seq<int>, y: int, coords: seq<int>)
    requires Positive(shape) && 0 < d && |shape| == |offset|
    ensures Positive(shape + [d])
    ensures Plus(Unravel(n, shape + [d]), offset + [y]) + coords
         == Plus(Unravel(n / d, shape), offset) + ([n % d + y] + coords)
  {
    assert (shape + [d])[..|shape|] == shape;
    assert Unravel(n, shape + [d]) == Unravel(n / d, shape) + [n % d];
    assert Plus(Unravel(n, shape + [d]), offset + [y]) == Plus(Unravel(n / d, shape), offset) + [n % d + y];
  }

  /** ShardedTensorToFlatIntervals: one interval per row of the last dimension. */
  method ShardedTensorToFlatIntervals(s: Shard) returns (intervals: seq<Interval>)
    requires Shaped(s)
    ensures intervals == Rows(s)
  {
    var shape, offset, size := s.key.globalShape, s.key.globalOffset, s.tensor.size;
    var dims := |shape|;
    if dims == 0 {
      return [Interval(0, 1)];
    }
    var numRows := 1;
    for i := 0 to dims - 1
      invariant numRows == Product(size[..i])
    {
      ProductAppend(size[..i], size[i]);
      assert size[..i + 1] == size[..i] + [size[i]];
      numRows := numRows * size[i];
    }
    intervals := [];
    ProductNonNegative(size[..dims - 1]);
    for row := 0 to numRows
      invariant |intervals| == row
      invariant forall k | 0 <= k < row :: intervals[k] == Row(s, k)
    {
      PositiveFront(s);
      var coords := RowCoordinates(size[..dims - 1], offset[..dims - 1], row);
      coords := coords + [offset[dims - 1]];
      var flatStart := CoordsToFlatIndex(coords, shape);
      intervals := intervals + [Interval(flatStart, flatStart + size[dims - 1])];
    }
  }

  lemma InsideIsInShape(s: Shard, c: seq<int>)
    requires InsideGlobal(s) && Contains(BoxOf(s), c)
    ensures InShape(c, s.key.globalShape)
  {
    forall i | 0 <= i < |c|
      ensures 0 <= c[i] < s.key.globalShape[i]
    {
      assert BoxOf(s).offset[i] <= c[i] < BoxOf(s).offset[i] + BoxOf(s).size[i];
    }
  }

  /** Moving the last coordinate moves the flat index by the same amount. */
  lemma FlatLast(c: seq<int>, d: seq<int>, shape: seq<int>)
    requires |c| == |d| == |shape| > 0
    requires c[..|c| - 1] == d[..|d| - 1]
    ensures Flat(c, shape) - Flat(d, shape) == c[|c| - 1] - d[|d| - 1]
  {
    var n := |shape| - 1;
    assert shape == shape[..n] + [shape[n]] && c == c[..n] + [c[n]] && d == d[..n] + [d[n]];
    FlatAppend(c[..n], shape[..n], c[n], shape[n]);
    FlatAppend(d[..n], shape[..n], d[n], shape[n]);
  }

  /** The box of a shard without its last dimension. */
  function FrontBox(s: Shard): Box
    requires Shaped(s) && s.tensor.size != []
  {
    var n := |s.tensor.size| - 1;
    Box(s.key.globalOffset[..n], s.tensor.size[..n])
  }

  /** A coordinate of a box, counted from the box's corner. */
  lemma LocalCoord(b: Box, c: seq<int>)
    requires Contains(b, c)
    ensures InShape(Minus(c, b.offset), b.size) && Plus(Minus(c, b.offset), b.offset) == c
  {
    forall i | 0 <= i < |c|
      ensures 0 <= Minus(c, b.offset)[i] < b.size[i]
    {
      assert b.offset[i] <= c[i] < b.offset[i] + b.size[i];
    }
  }

  /** The number of the row through coordinate c, by its coordinates in front of the last. */
  lemma RowNumber(s: Shard, c: seq<int>) returns (k: int)
    requires Shaped(s) && s.tensor.size != [] && |c| == |s.tensor.size|
    requires Contains(FrontBox(s), c[..|c| - 1])
    ensures 0 <= k < RowCount(s) && RowCoord(s, k)[..|c| - 1] == c[..|c| - 1]
  {
    var front := FrontBox(s);
    var local := Minus(c[..|c| - 1], front.offset);
    LocalCoord(front, c[..|c| - 1]);
    FlatBounds(local, front.size);
    FlatUnravel(local, front.size);
    k := Flat(local, front.size);
    PositiveFront(s);
    assert Unravel(k, front.size) == local;
  }

  /** The row that holds coordinate c. */
  lemma RowOf(s: Shard, c: seq<int>)
    requires Shaped(s) && s.tensor.size != [] && Contains(BoxOf(s), c)
    ensures InUnion(Flat(c, s.key.globalShape), Rows(s))
  {
    var n := |c| - 1;
    assert Contains(FrontBox(s), c[..n]) by {
      forall i | 0 <= i < n ensures FrontBox(s).offset[i] <= c[..n][i] < FrontBox(s).offset[i] + FrontBox(s).size[i] {
        assert BoxOf(s).offset[i] <= c[i] < BoxOf(s).offset[i] + BoxOf(s).size[i];
      }
    }
    var k := RowNumber(s, c);
    FlatLast(c, RowCoord(s, k), s.key.globalShape);
    assert BoxOf(s).offset[n] <= c[n] < BoxOf(s).offset[n] + BoxOf(s).size[n];
    RowInUnion(s, k, Flat(c, s.key.globalShape));
  }

  lemma RowInUnion(s: Shard, k: int, p: int)
    requires Shaped(s) && s.tensor.size != [] && 0 <= k < RowCount(s)
    requires Row(s, k).start <= p < Row(s, k).end
    ensures InUnion(p, Rows(s))
  {
    RowsAt(s);
    assert Rows(s)[k] == Row(s, k);
  }

  /** Every position of a row is the flat index of a coordinate of the shard. */
  lemma RowPoint(s: Shard, k: int, p: int) returns (c: seq<int>)
    requires Shaped(s) && s.tensor.size != [] && 0 <= k < RowCount(s)
    requires Row(s, k).start <= p < Row(s, k).end
    ensures Contains(BoxOf(s), c) && Flat(c, s.key.globalShape) == p
  {
    var n := |s.tensor.size| - 1;
    var start := RowCoord(s, k);
    c := start[..n] + [start[n] + p - Row(s, k).start];
    assert c[..n] == start[..n];
    FlatLast(c, start, s.key.globalShape);
    PositiveFront(s);
    UnravelFlat(k, s.tensor.size[..n]);
    var local := Unravel(k, s.tensor.size[..n]);
    forall i | 0 <= i < |c|
      ensures BoxOf(s).offset[i] <= c[i] < BoxOf(s).offset[i] + BoxOf(s).size[i]
    {
      if i < n {
        assert c[i] == local[i] + s.key.globalOffset[i] && 0 <= local[i] < s.tensor.size[..n][i];
      }
    }
  }

  // ---------- unions ----------

  lemma UnionAppend(p: int, a: seq<Interval>, b: seq<Interval>)
    ensures InUnion(p, a + b) <==> InUnion(p, a) || InUnion(p, b)
    ensures Touches(p, a + b) <==> Touches(p, a) || Touches(p, b)
  {
    forall i | 0 <= i < |b|
      ensures (a + b)[|a| + i] == b[i]
    {}
    forall i | 0 <= i < |a|
      ensures (a + b)[i] == a[i]
    {}
    if InUnion(p, b) {
      var i :| 0 <= i < |b| && b[i].start <= p < b[i].end;
      assert (a + b)[|a| + i] == b[i];
    }
    if Touches(p, b) {
      var i :| 0 <= i < |b| && b[i].start <= p <= b[i].end;
      assert (a + b)[|a| + i] == b[i];
    }
  }

  /** Candidate i has a row through position p. */
  predicate RowThrough(p: int, shards: seq<Shard>, i: int)
    requires AllShaped(shards)
  {
    0 <= i < |shards| && InUnion(p, Rows(shards[i]))
  }

  lemma {:induction false} ConcatUnion(p: int, lists: seq<seq<Interval>>)
    requires forall i | 0 <= i < |lists| :: Proper(lists[i])
    ensures InUnion(p, Concat(lists)) <==> exists i :: 0 <= i < |lists| && InUnion(p, lists[i])
  {
    if lists != [] {
      var n := |lists| - 1;
      ConcatUnion(p, lists[..n]);
      UnionAppend(p, Concat(lists[..n]), lists[n]);
      if i :| 0 <= i < n && InUnion(p, lists[..n][i]) {
        assert InUnion(p, lists[i]);
      }
      if i :| 0 <= i < |lists| && InUnion(p, lists[i]) {
        assert i < n ==> InUnion(p, lists[..n][i]);
      }
    }
  }

  /** The candidates' intervals hold a position exactly when one candidate's rows do. */
  lemma AllRowsUnion(p: int, shards: seq<Shard>)
    requires AllShaped(shards)
    ensures InUnion(p, AllRows(shards)) <==> exists i :: RowThrough(p, shards, i)
  {
    ConcatUnion(p, RowsOf(shards));
    if i :| 0 <= i < |shards| && InUnion(p, RowsOf(shards)[i]) {
      assert RowThrough(p, shards, i);
    }
    if i :| RowThrough(p, shards, i) {
      assert InUnion(p, RowsOf(shards)[i]);
    }
  }

  /** Stands for std::sort by start: some sorted permutation. */
  method SortByStart(s: seq<Interval>) returns (r: seq<Interval>)
    ensures multiset(r) == multiset(s)
    ensures Sorted(r)
  {
    r := [];
    for i := 0 to |s|
      invariant multiset(r) == multiset(s[..i])
      invariant Sorted(r)
    {
      assert s[..i + 1] == s[..i] + [s[i]];
      r := InsertByStart(r, s[i]);
    }
    assert s[..|s|] == s;
  }

  method InsertByStart(s: seq<Interval>, v: Interval) returns (r: seq<Interval>)
    requires Sorted(s)
    ensures multiset(r) == multiset(s) + multiset{v}
    ensures Sorted(r)
  {
    var j := |s|;
    while j > 0 && s[j - 1].start > v.start
      invariant 0 <= j <= |s|
      invariant forall k | j <= k < |s| :: v.start < s[k].start
    {
      j := j - 1;
    }
    InsertSorted(s, j, v);
    InsertCounts(s, j, v);
    r := s[..j] + [v] + s[j..];
  }

  lemma InsertCounts(s: seq<Interval>, j: nat, v: Interval)
    requires j <= |s|
    ensures multiset(s[..j] + [v] + s[j..]) == multiset(s) + multiset{v}
  {
    assert s == s[..j] + s[j..];
  }

  lemma InsertSorted(s: seq<Interval>, j: nat, v: Interval)
    requires Sorted(s) && j <= |s|
    requires forall k | 0 <= k < j :: s[k].start <= v.start
    requires forall k | j <= k < |s| :: v.start <= s[k].start
    ensures Sorted(s[..j] + [v] + s[j..])
  {
    var r := s[..j] + [v] + s[j..];
    forall a, b | 0 <= a < b < |r|
      ensures r[a].start <= r[b].start
    {
      assert r[a] == if a < j then s[a] else if a == j then v else s[a - 1];
      assert r[b] == if b < j then s[b] else if b == j then v else s[b - 1];
    }
  }

  lemma PermutationUnion(a: seq<Interval>, b: seq<Interval>)
    requires multiset(a) == multiset(b)
    ensures Proper(a) ==> Proper(b)
    ensures forall p :: InUnion(p, a) ==> InUnion(p, b)
    ensures forall p :: Touches(p, a) ==> Touches(p, b)
  {
    forall i | 0 <= i < |a|
      ensures a[i] in b
    {
      assert a[i] in multiset(a);
    }
    forall i | 0 <= i < |b|
      ensures b[i] in a
    {
      assert b[i] in multiset(b);
    }
  }

  /** Merged intervals leave a real gap between neighbours. */
  predicate Separated(m: seq<Interval>) {
    forall i, j | 0 <= i < j < |m| :: m[i].end < m[j].start
  }

  method MergeIntervals(s: seq<Interval>) returns (m: seq<Interval>)
    requires s != [] && Sorted(s) && Proper(s)
    ensures m != [] && Separated(m) && Proper(m)
    ensures forall p :: InUnion(p, m) <==> InUnion(p, s)
    ensures forall p :: Touches(p, m) <==> Touches(p, s)
  {
    m := [s[0]];
    assert s[..1] == [s[0]];
    for i := 1 to |s|
      invariant m != [] && Separated(m) && Proper(m)
      invariant m[|m| - 1].start <= s[i - 1].start
      invariant forall p :: InUnion(p, m) <==> InUnion(p, s[..i])
      invariant forall p :: Touches(p, m) <==> Touches(p, s[..i])
    {
      var last, current := m[|m| - 1], s[i];
      ghost var front := m[..|m| - 1];
      assert m == front + [last] && s[..i + 1] == s[..i] + [current];
      if current.start <= last.end {
        var joined := Interval(last.start, Max(last.end, current.end));
        forall p
          ensures InUnion(p, front + [joined]) <==> InUnion(p, s[..i + 1])
          ensures Touches(p, front + [joined]) <==> Touches(p, s[..i + 1])
        {
          UnionAppend(p, front, [last]);
          UnionAppend(p, front, [joined]);
          UnionAppend(p, s[..i], [current]);
          Singleton(p, last);
          Singleton(p, joined);
          Singleton(p, current);
        }
        m := m[..|m| - 1] + [joined];
      } else {
        forall p
          ensures InUnion(p, m + [current]) <==> InUnion(p, s[..i + 1])
          ensures Touches(p, m + [current]) <==> Touches(p, s[..i + 1])
        {
          UnionAppend(p, m, [current]);
          UnionAppend(p, s[..i], [current]);
        }
        m := m + [current];
      }
    }
    assert s[..|s|] == s;
  }

  lemma Singleton(p: int, v: Interval)
    ensures InUnion(p, [v]) <==> v.start <= p < v.end
    ensures Touches(p, [v]) <==> v.start <= p <= v.end
  {
    assert [v][0] == v;
  }

  /** A row lies in one merged interval exactly when all its positions are in the union
      (an empty row: when it touches the union). */
  ghost predicate RowCovered(row: Interval, s: seq<Interval>) {
    if row.start < row.end then forall p | row.start <= p < row.end :: InUnion(p, s)
    else Touches(row.start, s)
  }

  lemma OneMergedInterval(row: Interval, m: seq<Interval>)
    requires row.start <= row.end && Separated(m) && Proper(m)
    ensures (exists j | 0 <= j < |m| :: m[j].start <= row.start && m[j].end >= row.end) <==> RowCovered(row, m)
  {
    if row.start < row.end && RowCovered(row, m) {
      assert InUnion(row.start, m);
      var j :| 0 <= j < |m| && m[j].start <= row.start < m[j].end;
      assert m[j].end < row.end ==> InUnion(m[j].end, m);
    }
    if row.start < row.end && exists j | 0 <= j < |m| :: m[j].start <= row.start && m[j].end >= row.end {
      var j :| 0 <= j < |m| && m[j].start <= row.start && m[j].end >= row.end;
      forall p | row.start <= p < row.end
        ensures InUnion(p, m)
      {
        assert m[j].start <= p < m[j].end;
      }
    }
  }

  // ---------- the check ----------

  /** What the flat check decides: there is some candidate row, and every target row is covered. */
  ghost predicate FlatAccepts(candidates: seq<Shard>, target: Shard)
    requires AllShaped(candidates)
    requires Shaped(target)
  {
    && AllRows(candidates) != []
    && forall k | 0 <= k < |Rows(target)| :: RowCovered(Rows(target)[k], AllRows(candidates))
  }

  /** CheckCandidatesCoverage; `false` stands for the two runtime errors it throws. */
  method CheckCandidatesCoverage(candidates: seq<Shard>, target: Shard) returns (accepted: bool)
    requires AllShaped(candidates) && Shaped(target)
    ensures accepted <==> FlatAccepts(candidates, target)
  {
    var targetIntervals := ShardedTensorToFlatIntervals(target);
    var all := CandidateIntervals(candidates);
    if all == [] {
      return false;
    }
    accepted := EveryRowCovered(targetIntervals, all);
  }

  /** Sort and merge the candidates' intervals, then look every target row up. */
  method EveryRowCovered(rows: seq<Interval>, all: seq<Interval>) returns (accepted: bool)
    requires Proper(rows) && Proper(all) && all != []
    ensures accepted <==> forall k | 0 <= k < |rows| :: RowCovered(rows[k], all)
  {
    var merged := SortAndMerge(all);
    for k := 0 to |rows|
      invariant forall j | 0 <= j < k :: RowCovered(rows[j], all)
    {
      var covered := InOneInterval(rows[k], merged);
      SameCover(rows[k], merged, all);
      if !covered {
        return false;
      }
    }
    return true;
  }

  method SortAndMerge(all: seq<Interval>) returns (merged: seq<Interval>)
    requires Proper(all) && all != []
    ensures Separated(merged) && Proper(merged)
    ensures forall p :: InUnion(p, merged) <==> InUnion(p, all)
    ensures forall p :: Touches(p, merged) <==> Touches(p, all)
  {
    var sorted := SortByStart(all);
    PermutationUnion(all, sorted);
    PermutationUnion(sorted, all);
    assert |sorted| == |multiset(sorted)| == |multiset(all)|;
    merged := MergeIntervals(sorted);
  }

  /** The first loop: the intervals of the candidates, one after the other. */
  method CandidateIntervals(candidates: seq<Shard>) returns (all: seq<Interval>)
    requires AllShaped(candidates)
    ensures all == AllRows(candidates)
  {
    all := [];
    ghost var lists := RowsOf(candidates);
    for i := 0 to |candidates|
      invariant all == Concat(lists[..i])
    {
      var rows := ShardedTensorToFlatIntervals(candidates[i]);
      assert lists[..i + 1][..i] == lists[..i] && lists[i] == rows;
      all := all + rows;
    }
    assert lists[..|candidates|] == lists;
  }

  /** The inner loop over the merged intervals. */
  method InOneInterval(row: Interval, merged: seq<Interval>) returns (covered: bool)
    requires row.start <= row.end && Separated(merged) && Proper(merged)
    ensures covered <==> RowCovered(row, merged)
  {
    covered := false;
    for j := 0 to |merged|
      invariant covered <==> exists i | 0 <= i < j :: merged[i].start <= row.start && merged[i].end >= row.end
    {
      if merged[j].start <= row.start && merged[j].end >= row.end {
        covered := true;
      }
    }
    OneMergedInterval(row, merged);
  }

  lemma SameCover(row: Interval, a: seq<Interval>, b: seq<Interval>)
    requires forall p :: InUnion(p, a) <==> InUnion(p, b)
    requires forall p :: Touches(p, a) <==> Touches(p, b)
    ensures RowCovered(row, a) <==> RowCovered(row, b)
  {
  }

  // ---------- what it means ----------

  /** An element of the shard has flat index p. */
  ghost predicate Hits(s: Shard, p: int)
    requires Shaped(s)
  {
    exists c :: Contains(BoxOf(s), c) && Flat(c, s.key.globalShape) == p
  }

  ghost predicate AnyHits(candidates: seq<Shard>, p: int)
    requires AllShaped(candidates)
  {
    exists i | 0 <= i < |candidates| :: Hits(candidates[i], p)
  }

  /** Inside its tensor or not, the rows of a shard are the flat indices of its elements. */
  lemma RowsAreHits(s: Shard, p: int)
    requires Shaped(s)
    ensures InUnion(p, Rows(s)) <==> Hits(s, p)
  {
    if s.tensor.size == [] {
      Singleton(p, Interval(0, 1));
      assert Contains(BoxOf(s), []) && Flat([], s.key.globalShape) == 0;
    } else {
      if InUnion(p, Rows(s)) {
        RowsAt(s);
        var k :| 0 <= k < |Rows(s)| && Rows(s)[k].start <= p < Rows(s)[k].end;
        var c := RowPoint(s, k, p);
      }
      if c :| Contains(BoxOf(s), c) && Flat(c, s.key.globalShape) == p {
        RowOf(s, c);
      }
    }
  }

  /** For a shard inside the global tensor the rows are exactly the flat indices of its box. */
  lemma RowsExact(s: Shard, c: seq<int>)
    requires Shaped(s) && InsideGlobal(s)
    requires InShape(c, s.key.globalShape)
    ensures InUnion(Flat(c, s.key.globalShape), Rows(s)) <==> Contains(BoxOf(s), c)
  {
    RowsAreHits(s, Flat(c, s.key.globalShape));
    if d :| Contains(BoxOf(s), d) && Flat(d, s.key.globalShape) == Flat(c, s.key.globalShape) {
      InsideIsInShape(s, d);
      FlatInjective(c, d, s.key.globalShape);
    }
  }

  lemma UnionIsHits(candidates: seq<Shard>, p: int)
    requires AllShaped(candidates)
    ensures InUnion(p, AllRows(candidates)) <==> AnyHits(candidates, p)
  {
    AllRowsUnion(p, candidates);
    forall i | 0 <= i < |candidates|
      ensures RowThrough(p, candidates, i) <==> Hits(candidates[i], p)
    {
      RowsAreHits(candidates[i], p);
    }
  }

  /** What the check decides, for any shards and any target with elements: every element of the target
      shares its flat index with an element of some candidate. */
  lemma AcceptsExactly(candidates: seq<Shard>, target: Shard)
    requires AllShaped(candidates) && Shaped(target) && Positive(target.tensor.size)
    ensures FlatAccepts(candidates, target) <==>
            forall g | Contains(BoxOf(target), g) :: AnyHits(candidates, Flat(g, target.key.globalShape))
  {
    if FlatAccepts(candidates, target) {
      forall g | Contains(BoxOf(target), g)
        ensures AnyHits(candidates, Flat(g, target.key.globalShape))
      {
        AcceptedElement(candidates, target, g);
      }
    }
    if forall g | Contains(BoxOf(target), g) :: AnyHits(candidates, Flat(g, target.key.globalShape)) {
      var first := target.key.globalOffset;
      assert Contains(BoxOf(target), first);
      UnionIsHits(candidates, Flat(first, target.key.globalShape));
      forall k | 0 <= k < |Rows(target)|
        ensures RowCovered(Rows(target)[k], AllRows(candidates))
      {
        HitRow(candidates, target, k);
      }
    }
  }

  lemma AcceptedElement(candidates: seq<Shard>, target: Shard, g: seq<int>)
    requires AllShaped(candidates) && Shaped(target)
    requires FlatAccepts(candidates, target) && Contains(BoxOf(target), g)
    ensures AnyHits(candidates, Flat(g, target.key.globalShape))
  {
    var p := Flat(g, target.key.globalShape);
    RowsAreHits(target, p);
    var k :| 0 <= k < |Rows(target)| && Rows(target)[k].start <= p < Rows(target)[k].end;
    assert RowCovered(Rows(target)[k], AllRows(candidates));
    UnionIsHits(candidates, p);
  }

  lemma HitRow(candidates: seq<Shard>, target: Shard, k: int)
    requires AllShaped(candidates) && Shaped(target) && Positive(target.tensor.size)
    requires forall g | Contains(BoxOf(target), g) :: AnyHits(candidates, Flat(g, target.key.globalShape))
    requires 0 <= k < |Rows(target)|
    ensures RowCovered(Rows(target)[k], AllRows(candidates))
  {
    var row := Rows(target)[k];
    forall p | row.start <= p < row.end
      ensures InUnion(p, AllRows(candidates))
    {
      RowsAreHits(target, p);
      UnionIsHits(candidates, p);
    }
    assert row.start < row.end by {
      if target.tensor.size != [] {
        RowsAt(target);
        assert row == Row(target, k);
      }
    }
  }

  /** The fast check is exact: for shards inside the global tensor and a target that holds an
      element, it accepts if and only if every target coordinate lies in some candidate. */
  lemma CoverageExact(candidates: seq<Shard>, target: Shard)
    requires ShardsOfSame(candidates, target) && Positive(target.tensor.size)
    ensures FlatAccepts(candidates, target) <==> Covers(candidates, target)
  {
    if FlatAccepts(candidates, target) {
      CoverageSound(candidates, target);
    }
    if Covers(candidates, target) {
      CoverageComplete(candidates, target);
    }
  }

  /** Acceptance is never wrong, not even for a target without elements. */
  lemma CoverageSound(candidates: seq<Shard>, target: Shard)
    requires ShardsOfSame(candidates, target)
    requires FlatAccepts(candidates, target)
    ensures Covers(candidates, target)
  {
    var shape := target.key.globalShape;
    forall c | Contains(BoxOf(target), c)
      ensures exists i | 0 <= i < |candidates| :: Contains(BoxOf(candidates[i]), c)
    {
      InsideIsInShape(target, c);
      RowsExact(target, c);
      var p := Flat(c, shape);
      var k :| 0 <= k < |Rows(target)| && Rows(target)[k].start <= p < Rows(target)[k].end;
      assert RowCovered(Rows(target)[k], AllRows(candidates));
      AllRowsUnion(p, candidates);
      var i :| RowThrough(p, candidates, i);
      RowsExact(candidates[i], c);
    }
  }

  lemma CoverageComplete(candidates: seq<Shard>, target: Shard)
    requires ShardsOfSame(candidates, target) && Positive(target.tensor.size)
    requires Covers(candidates, target)
    ensures FlatAccepts(candidates, target)
  {
    AcceptsExactly(candidates, target);
    forall g | Contains(BoxOf(target), g)
      ensures AnyHits(candidates, Flat(g, target.key.globalShape))
    {
      var i :| 0 <= i < |candidates| && Contains(BoxOf(candidates[i]), g);
      assert Hits(candidates[i], Flat(g, target.key.globalShape));
    }
  }

  /** A target without elements is covered by anything; the check still wants some candidate row
      and every (empty) target row to touch one, and rejects otherwise. */
  lemma EmptyRows(candidates: seq<Shard>, target: Shard)
    requires ShardsOfSame(candidates, target) && !Positive(target.tensor.size)
    ensures Covers(candidates, target)
    ensures FlatAccepts(candidates, target) <==>
            && AllRows(candidates) != []
            && forall k | 0 <= k < |Rows(target)| :: Touches(Rows(target)[k].start, AllRows(candidates))
  {
    RowsAt(target);
    forall k | 0 <= k < |Rows(target)|
      ensures Rows(target)[k].start == Rows(target)[k].end
    {
      PositiveFront(target);
      var n := |target.tensor.size| - 1;
      assert target.tensor.size == target.tensor.size[..n] + [target.tensor.size[n]];
      assert Rows(target)[k] == Row(target, k);
    }
  }

  /** A 1xn shard at (y, x) of a 2x2 tensor. */
  function Strip(y: int, x: int, n: nat): Shard {
    Shard(ShardedKey("w", [2, 2], [y, x]), TensorMeta([1, n], [2, 1], 0, Dtype(6, 4)))
  }

  lemma StripInside(y: nat, x: nat, n: nat)
    requires y < 2 && x + n <= 2
    ensures InsideGlobal(Strip(y, x, n))
  {
  }

  /** The 1x0 target at (0, 0) has no element, yet a shard that holds the other row does not
      pass the check for it. */
  lemma EmptyTargetRejected()
    ensures ShardsOfSame([Strip(1, 0, 2)], Strip(0, 0, 0))
    ensures Covers([Strip(1, 0, 2)], Strip(0, 0, 0))
    ensures !FlatAccepts([Strip(1, 0, 2)], Strip(0, 0, 0))
  {
    var shard, target := Strip(1, 0, 2), Strip(0, 0, 0);
    StripInside(1, 0, 2);
    StripInside(0, 0, 0);
    assert target.tensor.size[1] == 0;
    EmptyRows([shard], target);
    assert !Touches(Rows(target)[0].start, AllRows([shard])) by {
      OneRow(1, 0, 2);
      OneRow(0, 0, 0);
      Singleton(0, Interval(2, 4));
    }
    OneRow(0, 0, 0);
  }

  /** A shard that sticks out of the tensor wraps into the next row, so a target it does not hold
      passes the check: the in-bounds condition is needed. */
  lemma OutOfBoundsAccepted()
    ensures Shaped(Strip(0, 1, 2)) && !InsideGlobal(Strip(0, 1, 2)) && InsideGlobal(Strip(1, 0, 1))
    ensures FlatAccepts([Strip(0, 1, 2)], Strip(1, 0, 1))
    ensures !Covers([Strip(0, 1, 2)], Strip(1, 0, 1))
  {
    var shard, target := Strip(0, 1, 2), Strip(1, 0, 1);
    assert FlatAccepts([shard], target) by {
      OneRow(0, 1, 2);
      OneRow(1, 0, 1);
      Singleton(2, Interval(1, 3));
    }
    assert !Covers([shard], target) by {
      assert BoxOf(shard).offset[1] == 1;
      assert Contains(BoxOf(target), [1, 0]) && !Contains(BoxOf(shard), [1, 0]);
    }
    assert BoxOf(shard).offset[1] + BoxOf(shard).size[1] > shard.key.globalShape[1];
  }

  lemma OneRow(y: int, x: int, n: nat)
    ensures Shaped(Strip(y, x, n))
    ensures Rows(Strip(y, x, n)) == [Interval(2 * y + x, 2 * y + x + n)] == AllRows([Strip(y, x, n)])
  {
    var s := Strip(y, x, n);
    assert s.tensor.size[..1] == [1];
    assert Product([1]) == 1 * Product([1][1..]) && [1][1..] == [];
    assert RowCoord(s, 0) == [y, x] by {
      PositiveFront(s);
      assert [1][..0] == [];
      assert Unravel(0, [1]) == Unravel(0, [1][..0]) + [0];
      assert Unravel(0, [1]) == [0] && s.key.globalOffset[..1] == [y];
    }
    StripFlat(y, x);
    RowsAt(s);
    assert Rows(s)[0] == Row(s, 0);
    assert RowsOf([s]) == [Rows(s)] && [Rows(s)][..0] == [];
    assert Concat([Rows(s)]) == Concat([]) + Rows(s) == Rows(s);
  }

  lemma StripFlat(y: int, x: int)
    ensures Flat([y, x], [2, 2]) == 2 * y + x
  {
    FlatAppend([], [], y, 2);
    FlatAppend([y], [2], x, 2);
    assert [] + [y] == [y] && [] + [2] == [2] && [y] + [x] == [y, x] && [2] + [2] == [2, 2];
  }
}
