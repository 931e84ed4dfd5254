/** N-dimensional boxes of a global tensor and the row-major flat index.
    A shard of a tensor is a box: the place it starts (`globalOffset`) and how far it
    reaches in each dimension (`size`). */
module Boxes {

  datatype Box = Box(offset: seq<int>, size: seq<int>)

  /** `c` lies in box `b`. */
  predicate Contains(b: Box, c: seq<int>) {
    && |c| == |b.offset| == |b.size|
    && forall i | 0 <= i < |c| :: b.offset[i] <= c[i] < b.offset[i] + b.size[i]
  }

  /** `c` is a coordinate of a tensor of the given shape. */
  predicate InShape(c: seq<int>, shape: seq<int>) {
    && |c| == |shape|
    && forall i | 0 <= i < |c| :: 0 <= c[i] < shape[i]
  }

  predicate NonNegative(s: seq<int>) {
    forall i | 0 <= i < |s| :: 0 <= s[i]
  }

  predicate Positive(s: seq<int>) {
    forall i | 0 <= i < |s| :: 0 < s[i]
  }

  /** The box lies inside a tensor of the given shape. */
  predicate InBounds(b: Box, shape: seq<int>) {
    && |b.offset| == |b.size| == |shape|
    && forall i | 0 <= i < |shape| :: 0 <= b.offset[i] && 0 <= b.size[i] && b.offset[i] + b.size[i] <= shape[i]
  }

  ghost predicate Disjoint(a: Box, b: Box) {
    forall c :: !(Contains(a, c) && Contains(b, c))
  }

  function Product(s: seq<int>): int {
    if s == [] then 1 else s[0] * Product(s[1..])
  }

  /** Row-major position of `c` in a tensor of the given shape. */
  function Flat(c: seq<int>, shape: seq<int>): int
    requires |c| == |shape|
  {
    if c == [] then 0 else c[0] * Product(shape[1..]) + Flat(c[1..], shape[1..])
  }

  /** Coordinate of row-major position `n`; the last dimension changes fastest. */
  function Unravel(n: int, shape: seq<int>): (c: seq<int>)
    requires Positive(shape)
    ensures |c| == |shape|
    decreases |shape|
  {
    if shape == [] then [] else
      var d := shape[|shape| - 1];
      Unravel(n / d, shape[..|shape| - 1]) + [n % d]
  }

  /** Component-wise sum, used to move between a shard's own coordinates and global ones. */
  function Plus(a: seq<int>, b: seq<int>): (c: seq<int>)
    requires |a| == |b|
    ensures |c| == |a|
    ensures forall i | 0 <= i < |a| :: c[i] == a[i] + b[i]
  {
    seq(|a|, i requires 0 <= i < |a| => a[i] + b[i])
  }

  function Minus(a: seq<int>, b: seq<int>): (c: seq<int>)
    requires |a| == |b|
    ensures |c| == |a|
    ensures forall i | 0 <= i < |a| :: c[i] == a[i] - b[i]
  {
    seq(|a|, i requires 0 <= i < |a| => a[i] - b[i])
  }

  /** The loop of CoordsToFlatIndex, last dimension first. */
  method CoordsToFlatIndex(coords: seq<int>, shape: seq<int>) returns (flatIndex: int)
    requires |coords| == |shape|
    ensures flatIndex == Flat(coords, shape)
  {
    flatIndex := 0;
    var stride := 1;
    var i := |shape|;
    while i > 0
      invariant 0 <= i <= |shape|
      invariant stride == Product(shape[i..])
      invariant flatIndex == Flat(coords[i..], shape[i..])
    {
      i := i - 1;
      assert shape[i..][1..] == shape[i + 1..] && coords[i..][1..] == coords[i + 1..];
      flatIndex := flatIndex + coords[i] * stride;
      stride := stride * shape[i];
    }
    assert coords[0..] == coords && shape[0..] == shape;
  }

  // ---------- products ----------

  lemma MulMono(a: int, b: int, p: int)
    requires a <= b && 0 <= p
    ensures a * p <= b * p
  {
    assert (b - a) * p >= 0;
  }

  lemma {:induction false} ProductNonNegative(s: seq<int>)
    requires NonNegative(s)
    ensures Product(s) >= 0
    ensures Positive(s) ==> Product(s) > 0
  {
    if s != [] {
      ProductNonNegative(s[1..]);
    }
  }

  lemma {:induction false} ProductAppend(s: seq<int>, d: int)
    ensures Product(s + [d]) == Product(s) * d
  {
    if s == [] {
      assert s + [d] == [d] && [d][1..] == [];
      assert Product([d]) == d * Product([]);
    } else {
      ProductAppend(s[1..], d);
      assert (s + [d])[1..] == s[1..] + [d];
      assert s[0] * (Product(s[1..]) * d) == s[0] * Product(s[1..]) * d;
    }
  }

  // ---------- the flat index is a bijection ----------

  lemma {:induction false} FlatBounds(c: seq<int>, shape: seq<int>)
    requires InShape(c, shape)
    ensures 0 <= Flat(c, shape) < Product(shape)
  {
    if c != [] {
      FlatBounds(c[1..], shape[1..]);
      var p := Product(shape[1..]);
      MulMono(0, c[0], p);
      MulMono(c[0] + 1, shape[0], p);
      assert (c[0] + 1) * p == c[0] * p + p;
    }
  }

  /** Distinct in-bounds coordinates have distinct flat indices. */
  lemma {:induction false} FlatInjective(c: seq<int>, d: seq<int>, shape: seq<int>)
    requires InShape(c, shape) && InShape(d, shape)
    requires Flat(c, shape) == Flat(d, shape)
    ensures c == d
  {
    if c != [] {
      FlatBounds(c[1..], shape[1..]);
      FlatBounds(d[1..], shape[1..]);
      var p := Product(shape[1..]);
      QuotientUnique(c[0], Flat(c[1..], shape[1..]), d[0], Flat(d[1..], shape[1..]), p);
      FlatInjective(c[1..], d[1..], shape[1..]);
      assert c == [c[0]] + c[1..] && d == [d[0]] + d[1..];
    }
  }

  lemma QuotientUnique(a: int, x: int, b: int, y: int, p: int)
    requires 0 <= x < p && 0 <= y < p
    requires a * p + x == b * p + y
    ensures a == b && x == y
  {
    if a < b {
      assert (a + 1) * p == a * p + p;
      MulMono(a + 1, b, p);
    } else if b < a {
      assert (b + 1) * p == b * p + p;
      MulMono(b + 1, a, p);
    }
  }

  lemma {:induction false} FlatAppend(c: seq<int>, shape: seq<int>, x: int, d: int)
    requires |c| == |shape|
    ensures Flat(c + [x], shape + [d]) == Flat(c, shape) * d + x
  {
    if c == [] {
      assert c + [x] == [x] && shape + [d] == [d];
      assert [x][1..] == [] && [d][1..] == [];
      assert Product([]) == 1;
    } else {
      FlatAppend(c[1..], shape[1..], x, d);
      ProductAppend(shape[1..], d);
      assert (c + [x])[1..] == c[1..] + [x] && (shape + [d])[1..] == shape[1..] + [d];
      var p, f := Product(shape[1..]), Flat(c[1..], shape[1..]);
      assert c[0] * (p * d) + (f * d + x) == (c[0] * p + f) * d + x;
    }
  }

  /** Every position below the element count is the flat index of an in-bounds coordinate. */
  lemma {:induction false} UnravelFlat(n: int, shape: seq<int>)
    requires Positive(shape)
    requires 0 <= n < Product(shape)
    ensures InShape(Unravel(n, shape), shape)
    ensures Flat(Unravel(n, shape), shape) == n
    decreases |shape|
  {
    if shape != [] {
      var front, d := shape[..|shape| - 1], shape[|shape| - 1];
      assert shape == front + [d];
      ProductAppend(front, d);
      var q, m := DivisionBelow(n, Product(front), d);
      UnravelFlat(q, front);
      FlatAppend(Unravel(q, front), front, m, d);
      assert Unravel(n, shape) == Unravel(q, front) + [m];
    }
  }

  lemma DivisionBelow(n: int, p: int, d: int) returns (q: int, m: int)
    requires 0 < d && 0 <= n < p * d
    ensures q == n / d && m == n % d
    ensures 0 <= q < p && 0 <= m < d && q * d + m == n
  {
    q, m := n / d, n % d;
    assert q * d + m == n;
    if q >= p {
      MulMono(p, q, d);
    } else if q < 0 {
      MulMono(q, -1, d);
    }
  }

  /** Unravel undoes Flat. */
  lemma FlatUnravel(c: seq<int>, shape: seq<int>)
    requires InShape(c, shape)
    ensures Positive(shape)
    ensures Unravel(Flat(c, shape), shape) == c
  {
    FlatBounds(c, shape);
    UnravelFlat(Flat(c, shape), shape);
    FlatInjective(Unravel(Flat(c, shape), shape), c, shape);
  }

  // ---------- intersection ----------

  function Max(a: int, b: int): int { if a < b then b else a }
  function Min(a: int, b: int): int { if a < b then a else b }

  /** The common part of two boxes; empty exactly when some size is not positive. */
  function Intersect(a: Box, b: Box): (r: Box)
    requires |a.offset| == |a.size| == |b.offset| == |b.size|
    ensures |r.offset| == |r.size| == |a.offset|
    ensures forall c :: Contains(r, c) <==> Contains(a, c) && Contains(b, c)
  {
    var n := |a.offset|;
    Box(seq(n, i requires 0 <= i < n => Max(a.offset[i], b.offset[i])),
        seq(n, i requires 0 <= i < n =>
          Min(a.offset[i] + a.size[i], b.offset[i] + b.size[i]) - Max(a.offset[i], b.offset[i])))
  }

  // ---------- counting coordinates ----------

  /** The n-th coordinate of a box, in row-major order. */
  ghost function Nth(b: Box, n: int): seq<int>
    requires |b.offset| == |b.size| && Positive(b.size)
  {
    Plus(b.offset, Unravel(n, b.size))
  }

  ghost function FirstCoords(b: Box, n: int): set<seq<int>>
    requires |b.offset| == |b.size| && Positive(b.size)
  {
    set i | 0 <= i < n :: Nth(b, i)
  }

  /** All coordinates of a box. */
  ghost function Coords(b: Box): set<seq<int>>
    requires |b.offset| == |b.size|
  {
    if Positive(b.size) then FirstCoords(b, Product(b.size)) else {}
  }

  lemma CoordsExact(b: Box, c: seq<int>)
    requires |b.offset| == |b.size|
    ensures c in Coords(b) <==> Contains(b, c)
  {
    if Contains(b, c) {
      var local := Minus(c, b.offset);
      FlatUnravel(local, b.size);
      FlatBounds(local, b.size);
      assert Nth(b, Flat(local, b.size)) == c;
    } else if c in Coords(b) {
      var n :| 0 <= n < Product(b.size) && c == Nth(b, n);
      UnravelFlat(n, b.size);
      assert false;
    }
  }

  lemma NthInjective(b: Box, m: int, n: int)
    requires |b.offset| == |b.size| && Positive(b.size)
    requires 0 <= m < Product(b.size) && 0 <= n < Product(b.size)
    requires Nth(b, m) == Nth(b, n)
    ensures m == n
  {
    var u, v := Unravel(m, b.size), Unravel(n, b.size);
    assert u == Minus(Nth(b, m), b.offset) && v == Minus(Nth(b, n), b.offset);
    UnravelFlat(m, b.size);
    UnravelFlat(n, b.size);
  }

  /** A box holds as many coordinates as the product of its sizes. */
  lemma CountCoords(b: Box)
    requires |b.offset| == |b.size| && NonNegative(b.size)
    ensures |Coords(b)| == Product(b.size)
  {
    ProductNonNegative(b.size);
    if Positive(b.size) {
      CountFirst(b, Product(b.size));
    } else {
      ProductZero(b.size);
    }
  }

  lemma {:induction false} CountFirst(b: Box, n: nat)
    requires |b.offset| == |b.size| && Positive(b.size)
    requires n <= Product(b.size)
    ensures |FirstCoords(b, n)| == n
    decreases n
  {
    if n == 0 {
      assert FirstCoords(b, n) == {};
    } else {
      CountFirst(b, n - 1);
      assert FirstCoords(b, n) == FirstCoords(b, n - 1) + {Nth(b, n - 1)};
      if Nth(b, n - 1) in FirstCoords(b, n - 1) {
        var i :| 0 <= i < n - 1 && Nth(b, n - 1) == Nth(b, i);
        NthInjective(b, n - 1, i);
      }
    }
  }

  lemma {:induction false} ProductZero(s: seq<int>)
    requires NonNegative(s) && !Positive(s)
    ensures Product(s) == 0
  {
    if s[0] != 0 {
      ProductZero(s[1..]);
    }
  }

  // ---------- tilings ----------

  /** The volumes of the boxes, added up. */
  ghost function Volume(boxes: seq<Box>): int {
    if boxes == [] then 0 else Volume(boxes[..|boxes| - 1]) + Product(boxes[|boxes| - 1].size)
  }

  ghost function AllCoords(boxes: seq<Box>): set<seq<int>>
    requires forall k | 0 <= k < |boxes| :: |boxes[k].offset| == |boxes[k].size|
  {
    if boxes == [] then {} else AllCoords(boxes[..|boxes| - 1]) + Coords(boxes[|boxes| - 1])
  }

  lemma {:induction false} AllCoordsExact(boxes: seq<Box>, c: seq<int>)
    requires forall k | 0 <= k < |boxes| :: |boxes[k].offset| == |boxes[k].size|
    ensures c in AllCoords(boxes) <==> exists k | 0 <= k < |boxes| :: Contains(boxes[k], c)
  {
    if boxes != [] {
      var front, last := boxes[..|boxes| - 1], boxes[|boxes| - 1];
      AllCoordsExact(front, c);
      CoordsExact(last, c);
      assert forall k | 0 <= k < |front| :: front[k] == boxes[k];
    }
  }

  /** Disjoint boxes hold as many coordinates as their volumes add up to. */
  lemma {:induction false} VolumeCounts(boxes: seq<Box>)
    requires forall k | 0 <= k < |boxes| :: |boxes[k].offset| == |boxes[k].size| && NonNegative(boxes[k].size)
    requires forall j, k | 0 <= j < k < |boxes| :: Disjoint(boxes[j], boxes[k])
    ensures |AllCoords(boxes)| == Volume(boxes)
  {
    if boxes != [] {
      var front, last := boxes[..|boxes| - 1], boxes[|boxes| - 1];
      assert forall k | 0 <= k < |front| :: front[k] == boxes[k];
      VolumeCounts(front);
      CountCoords(last);
      forall c | c in AllCoords(front) && c in Coords(last)
        ensures false
      {
        AllCoordsExact(front, c);
        CoordsExact(last, c);
      }
      assert AllCoords(front) * Coords(last) == {};
    }
  }

  /** Disjoint boxes that hold exactly the coordinates of another one have its volume. */
  lemma TilingVolume(boxes: seq<Box>, whole: Box)
    requires forall k | 0 <= k < |boxes| :: |boxes[k].offset| == |boxes[k].size| && NonNegative(boxes[k].size)
    requires forall j, k | 0 <= j < k < |boxes| :: Disjoint(boxes[j], boxes[k])
    requires |whole.offset| == |whole.size| && NonNegative(whole.size)
    requires forall c :: Contains(whole, c) <==> exists k | 0 <= k < |boxes| :: Contains(boxes[k], c)
    ensures Volume(boxes) == Product(whole.size)
  {
    VolumeCounts(boxes);
    CountCoords(whole);
    forall c
      ensures c in AllCoords(boxes) <==> c in Coords(whole)
    {
      AllCoordsExact(boxes, c);
      CoordsExact(whole, c);
    }
    assert AllCoords(boxes) == Coords(whole);
  }
}
