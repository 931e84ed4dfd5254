/** Exactly when the coverage check accepts a target without elements, in terms of the boxes. */
module EmptyTargets {
  import opened Boxes
  import opened Shards
  import opened Coverage

  /** The shard has rows, possibly empty ones. */
  predicate HasRows(s: Shard)
    requires Shaped(s) && s.tensor.size != []
  {
    Positive(FrontBox(s).size)
  }

  /** A row of the shard starts at coordinate g. */
  predicate RowStart(s: Shard, g: seq<int>)
    requires Shaped(s) && s.tensor.size != []
  {
    var n := |s.tensor.size| - 1;
    |g| == n + 1 && g[n] == s.key.globalOffset[n] && Contains(FrontBox(s), g[..n])
  }

  /** Position p is an element of the shard, comes right behind one, or starts an empty row of it. */
  ghost predicate NextTo(s: Shard, p: int)
    requires Shaped(s) && s.tensor.size != []
  {
    || (exists c :: Contains(BoxOf(s), c) && (Flat(c, s.key.globalShape) == p || Flat(c, s.key.globalShape) + 1 == p))
    || (RowLength(s) == 0 && exists g :: RowStart(s, g) && Flat(g, s.key.globalShape) == p)
  }

  lemma CoordIsStart(s: Shard, k: int)
    requires Shaped(s) && s.tensor.size != [] && 0 <= k < RowCount(s)
    ensures RowStart(s, RowCoord(s, k)) && Flat(RowCoord(s, k), s.key.globalShape) == Row(s, k).start
  {
    var n := |s.tensor.size| - 1;
    PositiveFront(s);
    UnravelFlat(k, s.tensor.size[..n]);
    var local, c := Unravel(k, s.tensor.size[..n]), RowCoord(s, k);
    forall i | 0 <= i < n
      ensures FrontBox(s).offset[i] <= c[..n][i] < FrontBox(s).offset[i] + FrontBox(s).size[i]
    {
      assert c[i] == local[i] + s.key.globalOffset[i] && 0 <= local[i] < s.tensor.size[..n][i];
    }
  }

  lemma StartIsRow(s: Shard, g: seq<int>) returns (k: int)
    requires Shaped(s) && s.tensor.size != [] && RowStart(s, g)
    ensures 0 <= k < RowCount(s) && Row(s, k).start == Flat(g, s.key.globalShape)
  {
    k := RowNumber(s, g);
    assert RowCoord(s, k) == g[..|g| - 1] + [g[|g| - 1]] == g;
  }

  /** A position touches the rows of a shard exactly when it is next to its box. */
  lemma TouchExact(s: Shard, p: int)
    requires Shaped(s) && s.tensor.size != []
    ensures Touches(p, Rows(s)) <==> NextTo(s, p)
  {
    if Touches(p, Rows(s)) {
      TouchedIsNext(s, p);
    }
    if NextTo(s, p) {
      NextIsTouched(s, p);
    }
  }

  lemma FullRowIsNext(s: Shard, k: int, p: int)
    requires Shaped(s) && s.tensor.size != [] && 0 <= k < RowCount(s) && RowLength(s) > 0
    requires Row(s, k).start <= p <= Row(s, k).end
    ensures NextTo(s, p)
  {
    if p < Row(s, k).end {
      var c := RowPoint(s, k, p);
    } else {
      var c := RowPoint(s, k, p - 1);
    }
  }

  lemma EmptyRowIsNext(s: Shard, k: int)
    requires Shaped(s) && s.tensor.size != [] && 0 <= k < RowCount(s) && RowLength(s) == 0
    ensures NextTo(s, Row(s, k).start)
  {
    CoordIsStart(s, k);
  }

  lemma TouchedIsNext(s: Shard, p: int)
    requires Shaped(s) && s.tensor.size != [] && Touches(p, Rows(s))
    ensures NextTo(s, p)
  {
    RowsAt(s);
    var k :| 0 <= k < |Rows(s)| && Rows(s)[k].start <= p <= Rows(s)[k].end;
    assert Rows(s)[k] == Row(s, k);
    if RowLength(s) == 0 {
      EmptyRowIsNext(s, k);
    } else {
      FullRowIsNext(s, k, p);
    }
  }

  lemma NextIsTouched(s: Shard, p: int)
    requires Shaped(s) && s.tensor.size != [] && NextTo(s, p)
    ensures Touches(p, Rows(s))
  {
    RowsAt(s);
    if c :| Contains(BoxOf(s), c) && (Flat(c, s.key.globalShape) == p || Flat(c, s.key.globalShape) + 1 == p) {
      RowOf(s, c);
      var q := Flat(c, s.key.globalShape);
      var k :| 0 <= k < |Rows(s)| && Rows(s)[k].start <= q < Rows(s)[k].end;
    } else {
      var g :| RowStart(s, g) && Flat(g, s.key.globalShape) == p;
      var k := StartIsRow(s, g);
      assert Rows(s)[k] == Row(s, k);
    }
  }

  // ---------- all candidates ----------

  lemma {:induction false} ConcatTouches(p: int, lists: seq<seq<Interval>>)
    requires forall i | 0 <= i < |lists| :: Proper(lists[i])
    ensures Touches(p, Concat(lists)) <==> exists i :: 0 <= i < |lists| && Touches(p, lists[i])
    ensures Concat(lists) != [] <==> exists i :: 0 <= i < |lists| && lists[i] != []
  {
    if lists != [] {
      var n := |lists| - 1;
      ConcatTouches(p, lists[..n]);
      UnionAppend(p, Concat(lists[..n]), lists[n]);
      if i :| 0 <= i < n && Touches(p, lists[..n][i]) {
        assert Touches(p, lists[i]);
      }
      if i :| 0 <= i < |lists| && Touches(p, lists[i]) {
        assert i < n ==> Touches(p, lists[..n][i]);
      }
      if i :| 0 <= i < n && lists[..n][i] != [] {
        assert lists[i] != [];
      }
      if i :| 0 <= i < |lists| && lists[i] != [] {
        assert i < n ==> lists[..n][i] != [];
      }
    }
  }

  /** Candidate i is next to position p. */
  ghost predicate NextToOne(shards: seq<Shard>, i: int, p: int) {
    0 <= i < |shards| && Shaped(shards[i]) && shards[i].tensor.size != [] && NextTo(shards[i], p)
  }

  ghost predicate SomeNextTo(shards: seq<Shard>, p: int) {
    exists i :: NextToOne(shards, i, p)
  }

  lemma AllRowsTouch(p: int, shards: seq<Shard>)
    requires forall i | 0 <= i < |shards| :: Shaped(shards[i]) && shards[i].tensor.size != []
    ensures Touches(p, AllRows(shards)) <==> SomeNextTo(shards, p)
  {
    ConcatTouches(p, RowsOf(shards));
    if i :| 0 <= i < |shards| && Touches(p, RowsOf(shards)[i]) {
      TouchExact(shards[i], p);
      assert NextToOne(shards, i, p);
    }
    if i :| NextToOne(shards, i, p) {
      TouchExact(shards[i], p);
      assert Touches(p, RowsOf(shards)[i]);
    }
  }

  predicate OneHasRows(shards: seq<Shard>, i: int) {
    0 <= i < |shards| && Shaped(shards[i]) && shards[i].tensor.size != [] && HasRows(shards[i])
  }

  lemma RowsExist(s: Shard)
    requires Shaped(s) && s.tensor.size != []
    ensures Rows(s) != [] <==> HasRows(s)
  {
    RowsAt(s);
    ProductNonNegative(FrontBox(s).size);
    if !Positive(FrontBox(s).size) {
      ProductZero(FrontBox(s).size);
    }
  }

  lemma SomeRow(shards: seq<Shard>)
    requires forall i | 0 <= i < |shards| :: Shaped(shards[i]) && shards[i].tensor.size != []
    ensures AllRows(shards) != [] <==> exists i :: OneHasRows(shards, i)
  {
    ConcatTouches(0, RowsOf(shards));
    if i :| 0 <= i < |shards| && RowsOf(shards)[i] != [] {
      RowsExist(shards[i]);
      assert OneHasRows(shards, i);
    }
    if i :| OneHasRows(shards, i) {
      RowsExist(shards[i]);
      assert RowsOf(shards)[i] != [];
    }
  }

  /** Row k of the target, by its start. */
  lemma RowTouches(candidates: seq<Shard>, target: Shard, k: int)
    requires ShardsOfSame(candidates, target) && target.tensor.size != [] && 0 <= k < |Rows(target)|
    ensures 0 <= k < RowCount(target)
    ensures RowStart(target, RowCoord(target, k))
    ensures Touches(Rows(target)[k].start, AllRows(candidates))
            <==> SomeNextTo(candidates, Flat(RowCoord(target, k), target.key.globalShape))
  {
    RowsAt(target);
    CoordIsStart(target, k);
    assert Rows(target)[k] == Row(target, k);
    AllRowsTouch(Rows(target)[k].start, candidates);
  }

  lemma StartTouches(candidates: seq<Shard>, target: Shard, g: seq<int>) returns (k: int)
    requires ShardsOfSame(candidates, target) && target.tensor.size != [] && RowStart(target, g)
    ensures 0 <= k < |Rows(target)|
    ensures Touches(Rows(target)[k].start, AllRows(candidates))
            <==> SomeNextTo(candidates, Flat(g, target.key.globalShape))
  {
    RowsAt(target);
    k := StartIsRow(target, g);
    assert Rows(target)[k] == Row(target, k);
    AllRowsTouch(Rows(target)[k].start, candidates);
  }

  /** Every row of the target starts next to some candidate. */
  ghost predicate StartsNextTo(candidates: seq<Shard>, target: Shard)
    requires Shaped(target) && target.tensor.size != []
  {
    forall g | RowStart(target, g) :: SomeNextTo(candidates, Flat(g, target.key.globalShape))
  }

  lemma StartsExact(candidates: seq<Shard>, target: Shard)
    requires ShardsOfSame(candidates, target) && target.tensor.size != []
    ensures (forall k | 0 <= k < |Rows(target)| :: Touches(Rows(target)[k].start, AllRows(candidates)))
            <==> StartsNextTo(candidates, target)
  {
    if StartsNextTo(candidates, target) {
      forall k | 0 <= k < |Rows(target)|
        ensures Touches(Rows(target)[k].start, AllRows(candidates))
      {
        RowTouches(candidates, target, k);
        assert SomeNextTo(candidates, Flat(RowCoord(target, k), target.key.globalShape));
      }
    } else {
      var g :| RowStart(target, g) && !SomeNextTo(candidates, Flat(g, target.key.globalShape));
      var k := StartTouches(candidates, target, g);
    }
  }

  /** A target without elements is covered by anything. The check accepts it if and only if some
      candidate has a row, and every row of the target starts next to a candidate. With a front
      dimension of zero the target has no row. */
  lemma EmptyTarget(candidates: seq<Shard>, target: Shard)
    requires ShardsOfSame(candidates, target) && !Positive(target.tensor.size)
    ensures Covers(candidates, target)
    ensures FlatAccepts(candidates, target) <==>
            (exists i :: OneHasRows(candidates, i)) && StartsNextTo(candidates, target)
  {
    EmptyRows(candidates, target);
    SomeRow(candidates);
    StartsExact(candidates, target);
  }
}
