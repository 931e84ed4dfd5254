/** The interval tree of registered memory regions, as a value. The functions do what the node
    operations of the tree do, stored heights included. */
module AvlTree {
  import Boxes

  /** A registered region [addr, addr + len); `item` is the registered value's address, 0 is NULL. */
  datatype Region = Region(addr: nat, len: nat, item: nat)

  datatype Tree = Leaf | Node(left: Tree, region: Region, height: nat, right: Tree)

  function End(g: Region): nat { g.addr + g.len }

  function H(t: Tree): nat { if t.Leaf? then 0 else t.height }

  function Refresh(t: Tree): Tree
    requires t.Node?
  {
    t.(height := Boxes.Max(H(t.left), H(t.right)) + 1)
  }

  function LL(t: Tree): Tree
    requires t.Node? && t.left.Node?
  {
    Refresh(t.left.(right := Refresh(t.(left := t.left.right))))
  }

  function RR(t: Tree): Tree
    requires t.Node? && t.right.Node?
  {
    Refresh(t.right.(left := Refresh(t.(right := t.right.left))))
  }

  function LR(t: Tree): Tree
    requires t.Node? && t.left.Node? && t.left.right.Node?
  {
    LL(t.(left := RR(t.left)))
  }

  function RL(t: Tree): Tree
    requires t.Node? && t.right.Node? && t.right.left.Node?
  {
    RR(t.(right := LL(t.right)))
  }

  // ---------- contents and order ----------

  ghost function Regions(t: Tree): set<Region> {
    if t.Leaf? then {} else Regions(t.left) + {t.region} + Regions(t.right)
  }

  /** The regions from left to right, as avl_scan visits them. */
  function InOrder(t: Tree): seq<Region> {
    if t.Leaf? then [] else InOrder(t.left) + [t.region] + InOrder(t.right)
  }

  function Size(t: Tree): nat {
    if t.Leaf? then 0 else Size(t.left) + 1 + Size(t.right)
  }

  ghost predicate Below(t: Tree, x: nat) {
    forall g | g in Regions(t) :: End(g) <= x
  }

  ghost predicate Above(t: Tree, x: nat) {
    forall g | g in Regions(t) :: x <= g.addr
  }

  /** No region is empty; everything on the left ends before the node's region starts, everything
      on the right starts behind its end. */
  ghost predicate Ordered(t: Tree) {
    t.Node? ==>
      && t.region.len > 0
      && Ordered(t.left) && Ordered(t.right)
      && Below(t.left, t.region.addr) && Above(t.right, End(t.region))
  }

  lemma LLContents(t: Tree)
    requires t.Node? && t.left.Node?
    ensures Regions(LL(t)) == Regions(t)
  {
    var p := t.left;
    assert Regions(LL(t).right) == Regions(p.right) + {t.region} + Regions(t.right);
    assert Regions(t) == Regions(p.left) + {p.region} + Regions(p.right) + {t.region} + Regions(t.right);
  }

  lemma LLOrdered(t: Tree)
    requires t.Node? && t.left.Node? && Ordered(t)
    ensures Ordered(LL(t))
  {
    var p := t.left;
    assert Regions(p) == Regions(p.left) + {p.region} + Regions(p.right);
    assert p.region in Regions(p);
    assert Regions(LL(t).right) == Regions(p.right) + {t.region} + Regions(t.right);
    assert Below(p.right, t.region.addr) && Above(LL(t).right, End(p.region));
  }

  lemma RRContents(t: Tree)
    requires t.Node? && t.right.Node?
    ensures Regions(RR(t)) == Regions(t)
  {
    var p := t.right;
    assert Regions(RR(t).left) == Regions(t.left) + {t.region} + Regions(p.left);
    assert Regions(t) == Regions(t.left) + {t.region} + Regions(p.left) + {p.region} + Regions(p.right);
  }

  lemma RROrdered(t: Tree)
    requires t.Node? && t.right.Node? && Ordered(t)
    ensures Ordered(RR(t))
  {
    var p := t.right;
    assert Regions(p) == Regions(p.left) + {p.region} + Regions(p.right);
    assert p.region in Regions(p);
    assert Regions(RR(t).left) == Regions(t.left) + {t.region} + Regions(p.left);
    assert Above(p.left, End(t.region)) && Below(RR(t).left, p.region.addr);
  }

  lemma LLKeeps(t: Tree)
    requires t.Node? && t.left.Node?
    ensures Regions(LL(t)) == Regions(t)
    ensures Ordered(t) ==> Ordered(LL(t))
  {
    LLContents(t);
    if Ordered(t) {
      LLOrdered(t);
    }
  }

  lemma RRKeeps(t: Tree)
    requires t.Node? && t.right.Node?
    ensures Regions(RR(t)) == Regions(t)
    ensures Ordered(t) ==> Ordered(RR(t))
  {
    RRContents(t);
    if Ordered(t) {
      RROrdered(t);
    }
  }

  lemma LRKeeps(t: Tree)
    requires t.Node? && t.left.Node? && t.left.right.Node?
    ensures Regions(LR(t)) == Regions(t)
    ensures Ordered(t) ==> Ordered(LR(t))
  {
    RRKeeps(t.left);
    LLKeeps(t.(left := RR(t.left)));
  }

  lemma RLKeeps(t: Tree)
    requires t.Node? && t.right.Node? && t.right.left.Node?
    ensures Regions(RL(t)) == Regions(t)
    ensures Ordered(t) ==> Ordered(RL(t))
  {
    LLKeeps(t.right);
    RRKeeps(t.(right := LL(t.right)));
  }

  // ---------- insertion ----------

  /** The double rotation after an insertion on the right finds the grandchild it turns up. Otherwise
      the code follows a null pointer: there is no result. */
  predicate RightSafe(t: Tree, g: Region)
    requires t.Node?
  {
    H(t.right) == H(t.left) + 2 && g.addr <= t.right.region.addr ==> t.right.left.Node?
  }

  predicate LeftSafe(t: Tree, g: Region)
    requires t.Node?
  {
    H(t.left) == H(t.right) + 2 && g.addr >= t.left.region.addr ==> t.left.right.Node?
  }

  /** The balance check after an insertion on the right. */
  function GrownRight(t: Tree, g: Region): Tree
    requires t.Node? && RightSafe(t, g)
  {
    if H(t.right) == H(t.left) + 2 then
      if g.addr > t.right.region.addr then RR(t) else RL(t)
    else t
  }

  function GrownLeft(t: Tree, g: Region): Tree
    requires t.Node? && LeftSafe(t, g)
  {
    if H(t.left) == H(t.right) + 2 then
      if g.addr < t.left.region.addr then LL(t) else LR(t)
    else t
  }

  /** No balance check on the way follows a null pointer. */
  predicate InsertSafe(t: Tree, g: Region, memory: bool)
    decreases t, 0
  {
    if t.Leaf? then true
    else if g.addr >= End(t.region) then
      InsertSafe(t.right, g, memory) && RightSafe(t.(right := Insert(t.right, g, memory).0), g)
    else if End(g) <= t.region.addr then
      InsertSafe(t.left, g, memory) && LeftSafe(t.(left := Insert(t.left, g, memory).0), g)
    else true
  }

  /** avl_insert: the tree and whether the region was added; `memory` says whether malloc succeeds. */
  function Insert(t: Tree, g: Region, memory: bool): (Tree, bool)
    requires InsertSafe(t, g, memory)
    decreases t, 1
  {
    if t.Leaf? then
      if memory then (Node(Leaf, g, 1, Leaf), true) else (Leaf, false)
    else if g.addr >= End(t.region) then
      var (right, ok) := Insert(t.right, g, memory);
      (Refresh(GrownRight(t.(right := right), g)), ok)
    else if End(g) <= t.region.addr then
      var (left, ok) := Insert(t.left, g, memory);
      (Refresh(GrownLeft(t.(left := left), g)), ok)
    else (t, false)
  }

  /** The region overlaps none of the tree's. */
  ghost predicate Free(t: Tree, g: Region) {
    forall x | x in Regions(t) :: End(x) <= g.addr || End(g) <= x.addr
  }

  lemma GrownRightKeeps(t: Tree, g: Region)
    requires t.Node? && RightSafe(t, g)
    ensures Regions(GrownRight(t, g)) == Regions(t)
    ensures Ordered(t) ==> Ordered(GrownRight(t, g))
  {
    if H(t.right) == H(t.left) + 2 {
      RRKeeps(t);
      if g.addr <= t.right.region.addr {
        RLKeeps(t);
      }
    }
  }

  lemma GrownLeftKeeps(t: Tree, g: Region)
    requires t.Node? && LeftSafe(t, g)
    ensures Regions(GrownLeft(t, g)) == Regions(t)
    ensures Ordered(t) ==> Ordered(GrownLeft(t, g))
  {
    if H(t.left) == H(t.right) + 2 {
      LLKeeps(t);
      if g.addr >= t.left.region.addr {
        LRKeeps(t);
      }
    }
  }

  /** The subtree on the right has got `more`, the new region or nothing; so has the tree. */
  lemma RightResult(t: Tree, right: Tree, g: Region, more: set<Region>)
    requires t.Node? && Ordered(t) && Ordered(right) && g.addr >= End(t.region)
    requires more <= {g} && Regions(right) == Regions(t.right) + more
    requires RightSafe(t.(right := right), g)
    ensures Regions(Refresh(GrownRight(t.(right := right), g))) == Regions(t) + more
    ensures Ordered(Refresh(GrownRight(t.(right := right), g)))
  {
    var t1 := t.(right := right);
    assert Ordered(t1) && Regions(t1) == Regions(t) + more;
    GrownRightKeeps(t1, g);
    RefreshKeeps(GrownRight(t1, g));
  }

  lemma LeftResult(t: Tree, left: Tree, g: Region, more: set<Region>)
    requires t.Node? && Ordered(t) && Ordered(left) && End(g) <= t.region.addr
    requires more <= {g} && Regions(left) == Regions(t.left) + more
    requires LeftSafe(t.(left := left), g)
    ensures Regions(Refresh(GrownLeft(t.(left := left), g))) == Regions(t) + more
    ensures Ordered(Refresh(GrownLeft(t.(left := left), g)))
  {
    var t1 := t.(left := left);
    assert Ordered(t1) && Regions(t1) == Regions(t) + more;
    GrownLeftKeeps(t1, g);
    RefreshKeeps(GrownLeft(t1, g));
  }

  lemma RefreshKeeps(t: Tree)
    requires t.Node?
    ensures Regions(Refresh(t)) == Regions(t)
    ensures Ordered(t) ==> Ordered(Refresh(t))
  {
  }

  /** Where the insertion of a free region has a result, it adds it and keeps the order. */
  lemma {:induction false} AddsIfSafe(t: Tree, g: Region)
    requires Ordered(t) && g.len > 0 && Free(t, g) && InsertSafe(t, g, true)
    ensures Insert(t, g, true).1
    ensures Regions(Insert(t, g, true).0) == Regions(t) + {g}
    ensures Ordered(Insert(t, g, true).0)
  {
    if t.Node? {
      assert t.region in Regions(t);
      if g.addr >= End(t.region) {
        AddsIfSafe(t.right, g);
        RightResult(t, Insert(t.right, g, true).0, g, {g});
      } else {
        AddsIfSafe(t.left, g);
        LeftResult(t, Insert(t.left, g, true).0, g, {g});
      }
    }
  }

  /** A freshly inserted region is at the root only as a single node or between two subtrees. */
  lemma InsertedRoot(t: Tree, g: Region)
    requires Ordered(t) && g.len > 0 && Free(t, g) && InsertSafe(t, g, true)
    requires Insert(t, g, true).0.region == g
    ensures t.Node? ==> Insert(t, g, true).0.left.Node? && Insert(t, g, true).0.right.Node?
  {
    if t.Node? {
      assert t.region in Regions(t);
      if g.addr >= End(t.region) {
        var t1 := t.(right := Insert(t.right, g, true).0);
        AddsIfSafe(t.right, g);
        assert t1.region != g;
      } else {
        var t1 := t.(left := Insert(t.left, g, true).0);
        AddsIfSafe(t.left, g);
        assert t1.region != g;
      }
    }
  }

  /** An insertion that succeeds never follows a null pointer, whatever heights are stored. */
  lemma {:induction false} InsertIsSafe(t: Tree, g: Region)
    requires Ordered(t) && g.len > 0 && Free(t, g)
    ensures InsertSafe(t, g, true)
  {
    if t.Node? {
      assert t.region in Regions(t);
      if g.addr >= End(t.region) {
        InsertIsSafe(t.right, g);
        AddsIfSafe(t.right, g);
        var right := Insert(t.right, g, true).0;
        if right.region == g {
          InsertedRoot(t.right, g);
        } else if g.addr <= right.region.addr {
          assert g in Regions(right.left);
        }
      } else {
        InsertIsSafe(t.left, g);
        AddsIfSafe(t.left, g);
        var left := Insert(t.left, g, true).0;
        if left.region == g {
          InsertedRoot(t.left, g);
        } else if g.addr >= left.region.addr {
          assert g in Regions(left.right);
        }
      }
    }
  }

  /** A region that overlaps nothing is added, order kept, whatever heights are stored. */
  lemma InsertAdds(t: Tree, g: Region)
    requires Ordered(t) && g.len > 0 && Free(t, g)
    ensures InsertSafe(t, g, true) && Insert(t, g, true).1
    ensures Regions(Insert(t, g, true).0) == Regions(t) + {g}
    ensures Ordered(Insert(t, g, true).0)
  {
    InsertIsSafe(t, g);
    AddsIfSafe(t, g);
  }

  // ---------- balance along insert-only histories ----------

  /** Stored heights are exact and siblings differ by at most one. */
  predicate Avl(t: Tree) {
    t.Node? ==>
      && Avl(t.left) && Avl(t.right)
      && t.height == Boxes.Max(H(t.left), H(t.right)) + 1
      && H(t.left) <= H(t.right) + 1 && H(t.right) <= H(t.left) + 1
  }

  /** The tree grew by a level: it leans to the side the region went to. */
  predicate Leans(t: Tree, g: Region)
    requires t.Node?
  {
    && g.addr != t.region.addr
    && (g.addr > t.region.addr ==> H(t.right) == H(t.left) + 1)
    && (g.addr < t.region.addr ==> H(t.left) == H(t.right) + 1)
  }

  /** What one insertion does to the height of a balanced tree. */
  predicate GrowsBalanced(t: Tree, t': Tree, g: Region) {
    && Avl(t') && t'.Node?
    && H(t) <= H(t') <= H(t) + 1
    && (t.Node? && H(t') == H(t) + 1 ==> Leans(t', g))
  }

  /** The double rotations balance a tree whose child leans inwards. */
  lemma RLBalanced(t: Tree)
    requires t.Node? && t.right.Node? && t.right.left.Node? && Avl(t.left) && Avl(t.right)
    requires H(t.right) == H(t.left) + 2 && H(t.right.left) == H(t.right.right) + 1
    ensures Avl(RL(t)) && RL(t).Node? && H(RL(t)) == H(t.left) + 2
  {
    var p := t.right.left;
    assert Avl(p) && Avl(p.left) && Avl(p.right) && Avl(t.right.right);
  }

  lemma LRBalanced(t: Tree)
    requires t.Node? && t.left.Node? && t.left.right.Node? && Avl(t.left) && Avl(t.right)
    requires H(t.left) == H(t.right) + 2 && H(t.left.right) == H(t.left.left) + 1
    ensures Avl(LR(t)) && LR(t).Node? && H(LR(t)) == H(t.right) + 2
  {
    var p := t.left.right;
    assert Avl(p) && Avl(p.left) && Avl(p.right) && Avl(t.left.left);
  }

  lemma GrownRightBalanced(t: Tree, right: Tree, g: Region)
    requires t.Node? && Avl(t) && GrowsBalanced(t.right, right, g)
    requires t.right.Leaf? ==> right == Node(Leaf, g, 1, Leaf)
    requires g.addr > t.region.addr && RightSafe(t.(right := right), g)
    ensures GrowsBalanced(t, Refresh(GrownRight(t.(right := right), g)), g)
  {
    if H(right) == H(t.left) + 2 {
      assert Leans(right, g);
      if g.addr < right.region.addr {
        RLBalanced(t.(right := right));
      }
    }
  }

  lemma GrownLeftBalanced(t: Tree, left: Tree, g: Region)
    requires t.Node? && Avl(t) && GrowsBalanced(t.left, left, g)
    requires t.left.Leaf? ==> left == Node(Leaf, g, 1, Leaf)
    requires g.addr < t.region.addr && LeftSafe(t.(left := left), g)
    ensures GrowsBalanced(t, Refresh(GrownLeft(t.(left := left), g)), g)
  {
    if H(left) == H(t.right) + 2 {
      assert Leans(left, g);
      if g.addr > left.region.addr {
        LRBalanced(t.(left := left));
      }
    }
  }

  /** Insertion keeps exact heights and balance. */
  lemma {:induction false} InsertKeepsAvl(t: Tree, g: Region)
    requires Ordered(t) && Avl(t) && g.len > 0 && Free(t, g)
    ensures InsertSafe(t, g, true) && GrowsBalanced(t, Insert(t, g, true).0, g)
  {
    InsertIsSafe(t, g);
    if t.Node? {
      assert t.region in Regions(t);
      if g.addr >= End(t.region) {
        InsertKeepsAvl(t.right, g);
        GrownRightBalanced(t, Insert(t.right, g, true).0, g);
      } else {
        InsertKeepsAvl(t.left, g);
        GrownLeftBalanced(t, Insert(t.left, g, true).0, g);
      }
    }
  }

  /** A rejected insertion into a balanced tree, for an overlap or for lack of memory, changes
      nothing and never follows a null pointer. */
  lemma {:induction false} RejectChangesNothing(t: Tree, g: Region, memory: bool)
    requires Ordered(t) && Avl(t) && g.len > 0
    requires !memory || !Free(t, g)
    ensures InsertSafe(t, g, memory) && Insert(t, g, memory) == (t, false)
  {
    if t.Node? {
      if g.addr >= End(t.region) {
        FreeOnRight(t, g);
        RejectChangesNothing(t.right, g, memory);
      } else if End(g) <= t.region.addr {
        FreeOnLeft(t, g);
        RejectChangesNothing(t.left, g, memory);
      }
    }
  }

  /** A rejected insertion that follows no null pointer keeps the regions and their order, whatever
      heights are stored; it may rotate and correct heights on its way. */
  lemma {:induction false} RejectKeeps(t: Tree, g: Region, memory: bool)
    requires Ordered(t) && g.len > 0 && (!memory || !Free(t, g)) && InsertSafe(t, g, memory)
    ensures !Insert(t, g, memory).1
    ensures Regions(Insert(t, g, memory).0) == Regions(t) && Ordered(Insert(t, g, memory).0)
  {
    if t.Node? {
      if g.addr >= End(t.region) {
        FreeOnRight(t, g);
        RejectKeeps(t.right, g, memory);
        SameOnRight(t, Insert(t.right, g, memory).0, g);
      } else if End(g) <= t.region.addr {
        FreeOnLeft(t, g);
        RejectKeeps(t.left, g, memory);
        SameOnLeft(t, Insert(t.left, g, memory).0, g);
      }
    }
  }

  lemma SameOnRight(t: Tree, right: Tree, g: Region)
    requires t.Node? && Ordered(t) && Ordered(right) && g.addr >= End(t.region)
    requires Regions(right) == Regions(t.right) && RightSafe(t.(right := right), g)
    ensures Regions(Refresh(GrownRight(t.(right := right), g))) == Regions(t)
    ensures Ordered(Refresh(GrownRight(t.(right := right), g)))
  {
    RightResult(t, right, g, {});
  }

  lemma SameOnLeft(t: Tree, left: Tree, g: Region)
    requires t.Node? && Ordered(t) && Ordered(left) && End(g) <= t.region.addr
    requires Regions(left) == Regions(t.left) && LeftSafe(t.(left := left), g)
    ensures Regions(Refresh(GrownLeft(t.(left := left), g))) == Regions(t)
    ensures Ordered(Refresh(GrownLeft(t.(left := left), g)))
  {
    LeftResult(t, left, g, {});
  }

  lemma FreeOnRight(t: Tree, g: Region)
    requires t.Node? && Ordered(t) && g.addr >= End(t.region)
    ensures Free(t.right, g) ==> Free(t, g)
  {
  }

  lemma FreeOnLeft(t: Tree, g: Region)
    requires t.Node? && Ordered(t) && End(g) <= t.region.addr
    ensures Free(t.left, g) ==> Free(t, g)
  {
  }

  function Fib(n: nat): nat {
    if n < 2 then n else Fib(n - 1) + Fib(n - 2)
  }

  lemma {:induction false} FibMonotone(m: nat, n: nat)
    requires m <= n
    ensures Fib(m) <= Fib(n)
    decreases n - m
  {
    if m < n {
      FibMonotone(m + 1, n);
    }
  }

  /** A balanced tree of height h holds at least Fib(h + 2) - 1 regions. */
  lemma {:induction false} HeightBound(t: Tree)
    requires Avl(t)
    ensures Size(t) + 1 >= Fib(H(t) + 2)
  {
    if t.Node? {
      HeightBound(t.left);
      HeightBound(t.right);
      var low := if H(t.left) < H(t.right) then H(t.left) else H(t.right);
      FibMonotone(H(t) - 2 + 2, low + 2);
    }
  }

  // ---------- finding ----------

  datatype Found = Nothing | Hit(region: Region)

  /** avl_find. */
  function Find(t: Tree, addr: nat, len: nat): Found {
    if t.Leaf? then Nothing
    else if addr + len <= t.region.addr then Find(t.left, addr, len)
    else if addr >= End(t.region) then Find(t.right, addr, len)
    else if addr >= t.region.addr && addr + len <= End(t.region) then Hit(t.region)
    else Nothing
  }

  /** How many nodes avl_find visits. */
  function FindSteps(t: Tree, addr: nat, len: nat): nat {
    if t.Leaf? then 0
    else if addr + len <= t.region.addr then 1 + FindSteps(t.left, addr, len)
    else if addr >= End(t.region) then 1 + FindSteps(t.right, addr, len)
    else 1
  }

  ghost predicate Holds(g: Region, addr: nat, len: nat) {
    g.addr <= addr && addr + len <= End(g)
  }

  /** avl_find agrees with a linear scan: it hits exactly the region that contains the range. */
  lemma {:induction false} FindIsScan(t: Tree, addr: nat, len: nat, g: Region)
    requires Ordered(t) && len > 0
    ensures Find(t, addr, len) == Hit(g) <==> g in Regions(t) && Holds(g, addr, len)
  {
    if t.Node? {
      FindIsScan(t.left, addr, len, g);
      FindIsScan(t.right, addr, len, g);
    }
  }

  /** In a balanced tree avl_find visits at most as many nodes as the tree is high. */
  lemma {:induction false} FindStepsBound(t: Tree, addr: nat, len: nat)
    requires Avl(t)
    ensures FindSteps(t, addr, len) <= H(t)
  {
    if t.Node? {
      FindStepsBound(t.left, addr, len);
      FindStepsBound(t.right, addr, len);
    }
  }

  // ---------- removal ----------

  function MaxRegion(t: Tree): Region
    requires t.Node?
  {
    if t.right.Leaf? then t.region else MaxRegion(t.right)
  }

  function MinRegion(t: Tree): Region
    requires t.Node?
  {
    if t.left.Leaf? then t.region else MinRegion(t.left)
  }

  /** The balance check after a removal on the left; heights are not refreshed otherwise. */
  function ShrunkLeft(t: Tree): Tree
    requires t.Node?
  {
    if H(t.right) == H(t.left) + 2 then
      if H(t.right.left) > H(t.right.right) then RL(t) else RR(t)
    else t
  }

  function ShrunkRight(t: Tree): Tree
    requires t.Node?
  {
    if H(t.left) == H(t.right) + 2 then
      if H(t.left.right) > H(t.left.left) then LR(t) else LL(t)
    else t
  }

  /** avl_delete_node, for the node whose region starts at `key`. */
  function Delete(t: Tree, key: nat): Tree {
    if t.Leaf? then Leaf
    else if key < t.region.addr then ShrunkLeft(t.(left := Delete(t.left, key)))
    else if key > t.region.addr then ShrunkRight(t.(right := Delete(t.right, key)))
    else if t.left.Node? && t.right.Node? then
      if H(t.left) > H(t.right) then
        var m := MaxRegion(t.left);
        t.(region := m, left := Delete(t.left, m.addr))
      else
        var m := MinRegion(t.right);
        t.(region := m, right := Delete(t.right, m.addr))
    else if t.left.Node? then t.left else t.right
  }

  lemma {:induction false} MaxIsLast(t: Tree)
    requires t.Node? && Ordered(t)
    ensures MaxRegion(t) in Regions(t)
    ensures forall g | g in Regions(t) && g != MaxRegion(t) :: End(g) <= MaxRegion(t).addr
  {
    if t.right.Node? {
      MaxIsLast(t.right);
      assert MaxRegion(t) in Regions(t.right);
    }
  }

  lemma {:induction false} MinIsFirst(t: Tree)
    requires t.Node? && Ordered(t)
    ensures MinRegion(t) in Regions(t)
    ensures forall g | g in Regions(t) && g != MinRegion(t) :: End(MinRegion(t)) <= g.addr
  {
    if t.left.Node? {
      MinIsFirst(t.left);
      assert MinRegion(t) in Regions(t.left);
    }
  }

  lemma ShrunkLeftKeeps(t: Tree)
    requires t.Node? && Ordered(t)
    ensures Regions(ShrunkLeft(t)) == Regions(t) && Ordered(ShrunkLeft(t))
  {
    if H(t.right) == H(t.left) + 2 {
      RRKeeps(t);
      if H(t.right.left) > H(t.right.right) {
        RLKeeps(t);
      }
    }
  }

  lemma ShrunkRightKeeps(t: Tree)
    requires t.Node? && Ordered(t)
    ensures Regions(ShrunkRight(t)) == Regions(t) && Ordered(ShrunkRight(t))
  {
    if H(t.left) == H(t.right) + 2 {
      LLKeeps(t);
      if H(t.left.right) > H(t.left.left) {
        LRKeeps(t);
      }
    }
  }

  lemma {:induction false} RegionsNotEmpty(t: Tree)
    requires Ordered(t)
    ensures forall g | g in Regions(t) :: g.len > 0
  {
    if t.Node? {
      RegionsNotEmpty(t.left);
      RegionsNotEmpty(t.right);
    }
  }

  ghost function Without(s: set<Region>, key: nat): set<Region> {
    set g | g in s && g.addr != key
  }

  lemma WithoutParts(t: Tree, key: nat)
    requires t.Node? && key != t.region.addr
    ensures Without(Regions(t), key) == Without(Regions(t.left), key) + {t.region} + Without(Regions(t.right), key)
  {
  }

  lemma LessOnLeft(t: Tree, key: nat, left: Tree)
    requires t.Node? && Ordered(t) && key < t.region.addr
    requires Ordered(left) && Regions(left) == Without(Regions(t.left), key)
    ensures Ordered(t.(left := left)) && Regions(t.(left := left)) == Without(Regions(t), key)
  {
    assert Without(Regions(t.right), key) == Regions(t.right);
    WithoutParts(t, key);
  }

  lemma LessOnRight(t: Tree, key: nat, right: Tree)
    requires t.Node? && Ordered(t) && key > t.region.addr
    requires Ordered(right) && Regions(right) == Without(Regions(t.right), key)
    ensures Ordered(t.(right := right)) && Regions(t.(right := right)) == Without(Regions(t), key)
  {
    RegionsNotEmpty(t.left);
    assert Without(Regions(t.left), key) == Regions(t.left);
    WithoutParts(t, key);
  }

  lemma RootGone(t: Tree)
    requires t.Node? && Ordered(t)
    ensures Without(Regions(t), t.region.addr) == Regions(t.left) + Regions(t.right)
  {
    RegionsNotEmpty(t);
  }

  lemma TakeFromLeft(t: Tree, m: Region, left: Tree)
    requires t.Node? && Ordered(t) && m in Regions(t.left)
    requires forall g | g in Regions(t.left) && g != m :: End(g) <= m.addr
    requires Ordered(left) && Regions(left) == Without(Regions(t.left), m.addr)
    ensures Ordered(t.(region := m, left := left))
    ensures Regions(t.(region := m, left := left)) == Regions(t.left) + Regions(t.right)
  {
    RegionsNotEmpty(t.left);
    assert Regions(left) + {m} == Regions(t.left);
  }

  lemma TakeFromRight(t: Tree, m: Region, right: Tree)
    requires t.Node? && Ordered(t) && m in Regions(t.right)
    requires forall g | g in Regions(t.right) && g != m :: End(m) <= g.addr
    requires Ordered(right) && Regions(right) == Without(Regions(t.right), m.addr)
    ensures Ordered(t.(region := m, right := right))
    ensures Regions(t.(region := m, right := right)) == Regions(t.left) + Regions(t.right)
  {
    RegionsNotEmpty(t.right);
    assert Regions(right) + {m} == Regions(t.right);
  }

  /** Removal takes out exactly the region that starts at `key` and keeps the order and all other
      regions, whatever heights are stored. */
  lemma {:induction false} DeleteRemoves(t: Tree, key: nat)
    requires Ordered(t)
    ensures Ordered(Delete(t, key))
    ensures Regions(Delete(t, key)) == Without(Regions(t), key)
    decreases t, 1
  {
    if t.Leaf? {
    } else if key < t.region.addr {
      DeleteRemoves(t.left, key);
      LessOnLeft(t, key, Delete(t.left, key));
      ShrunkLeftKeeps(t.(left := Delete(t.left, key)));
    } else if key > t.region.addr {
      DeleteRemoves(t.right, key);
      LessOnRight(t, key, Delete(t.right, key));
      ShrunkRightKeeps(t.(right := Delete(t.right, key)));
    } else {
      DeleteRoot(t);
    }
  }

  lemma {:induction false} DeleteRoot(t: Tree)
    requires t.Node? && Ordered(t)
    ensures Ordered(Delete(t, t.region.addr))
    ensures Regions(Delete(t, t.region.addr)) == Without(Regions(t), t.region.addr)
    decreases t, 0
  {
    RootGone(t);
    if t.left.Node? && t.right.Node? {
      if H(t.left) > H(t.right) {
        var m := MaxRegion(t.left);
        MaxIsLast(t.left);
        DeleteRemoves(t.left, m.addr);
        TakeFromLeft(t, m, Delete(t.left, m.addr));
      } else {
        var m := MinRegion(t.right);
        MinIsFirst(t.right);
        DeleteRemoves(t.right, m.addr);
        TakeFromRight(t, m, Delete(t.right, m.addr));
      }
    }
  }

  // ---------- scanning ----------

  lemma {:induction false} ScanContents(t: Tree)
    ensures forall g :: g in InOrder(t) <==> g in Regions(t)
    ensures |InOrder(t)| == Size(t)
  {
    if t.Node? {
      ScanContents(t.left);
      ScanContents(t.right);
    }
  }

  lemma {:induction false} CountRegions(t: Tree)
    requires Ordered(t)
    ensures |Regions(t)| == Size(t)
  {
    if t.Node? {
      CountRegions(t.left);
      CountRegions(t.right);
      RegionsNotEmpty(t);
      assert Regions(t.left) * Regions(t.right) == {};
      assert t.region !in Regions(t.left) && t.region !in Regions(t.right);
    }
  }

  /** avl_scan lists every region once, in address order. */
  lemma {:induction false} ScanIsSorted(t: Tree)
    requires Ordered(t)
    ensures forall i, j | 0 <= i < j < |InOrder(t)| :: End(InOrder(t)[i]) <= InOrder(t)[j].addr
  {
    if t.Node? {
      ScanIsSorted(t.left);
      ScanIsSorted(t.right);
      ScanContents(t.left);
      ScanContents(t.right);
      RegionsNotEmpty(t);
      JoinSorted(InOrder(t.left), t.region, InOrder(t.right));
    }
  }

  lemma JoinSorted(l: seq<Region>, m: Region, r: seq<Region>)
    requires forall i, j | 0 <= i < j < |l| :: End(l[i]) <= l[j].addr
    requires forall i, j | 0 <= i < j < |r| :: End(r[i]) <= r[j].addr
    requires (forall g | g in l :: End(g) <= m.addr) && (forall g | g in r :: End(m) <= g.addr)
    ensures forall i, j | 0 <= i < j < |l + [m] + r| :: End((l + [m] + r)[i]) <= (l + [m] + r)[j].addr
  {
    var s := l + [m] + r;
    forall i, j | 0 <= i < j < |s|
      ensures End(s[i]) <= s[j].addr
    {
      assert s[i] == if i < |l| then l[i] else if i == |l| then m else r[i - |l| - 1];
      assert s[j] == if j < |l| then l[j] else if j == |l| then m else r[j - |l| - 1];
    }
  }
}
