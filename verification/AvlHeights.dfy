/** Heights of the interval tree when regions are removed: stored heights are not updated, but they never
    fall short, and the rebalancing of a removal does what it is meant to where heights are exact. */
module AvlHeights {
  import opened AvlTree
  import opened RegionSets

  /** The true height of a tree. */
  function Depth(t: Tree): nat {
    if t.Leaf? then 0 else 1 + Boxes.Max(Depth(t.left), Depth(t.right))
  }

  /** Every stored height is above those of the children. */
  predicate Tall(t: Tree) {
    t.Node? ==> Tall(t.left) && Tall(t.right) && H(t.left) < t.height && H(t.right) < t.height
  }

  lemma {:induction false} TallCovers(t: Tree)
    requires Tall(t)
    ensures Depth(t) <= H(t)
  {
    if t.Node? {
      TallCovers(t.left);
      TallCovers(t.right);
    }
  }

  lemma {:induction false} StepsAreDepth(t: Tree, addr: nat, len: nat)
    ensures FindSteps(t, addr, len) <= Depth(t)
  {
    if t.Node? {
      StepsAreDepth(t.left, addr, len);
      StepsAreDepth(t.right, addr, len);
    }
  }

  // ---------- stored heights never fall short ----------

  lemma RotationsTall(t: Tree)
    requires t.Node? && Tall(t.left) && Tall(t.right)
    ensures t.left.Node? ==> Tall(LL(t))
    ensures t.right.Node? ==> Tall(RR(t))
    ensures t.left.Node? && t.left.right.Node? ==> Tall(LR(t))
    ensures t.right.Node? && t.right.left.Node? ==> Tall(RL(t))
  {
  }

  lemma {:induction false} InsertTall(t: Tree, g: Region, memory: bool)
    requires Tall(t) && InsertSafe(t, g, memory)
    ensures Tall(Insert(t, g, memory).0)
  {
    if t.Node? {
      if g.addr >= End(t.region) {
        InsertTall(t.right, g, memory);
        GrownTall(t.(right := Insert(t.right, g, memory).0), g);
      } else if End(g) <= t.region.addr {
        InsertTall(t.left, g, memory);
        GrownTall(t.(left := Insert(t.left, g, memory).0), g);
      }
    }
  }

  /** Accepted or rejected, an insertion corrects the heights on its way up: the node it comes back to has
      one level more than its higher child. */
  lemma InsertCorrects(t: Tree, g: Region, memory: bool)
    requires t.Node? && InsertSafe(t, g, memory) && (g.addr >= End(t.region) || End(g) <= t.region.addr)
    ensures var t' := Insert(t, g, memory).0;
            t'.Node? && t'.height == Boxes.Max(H(t'.left), H(t'.right)) + 1
  {
  }

  lemma GrownTall(t: Tree, g: Region)
    requires t.Node? && Tall(t.left) && Tall(t.right)
    ensures RightSafe(t, g) ==> Tall(Refresh(GrownRight(t, g)))
    ensures LeftSafe(t, g) ==> Tall(Refresh(GrownLeft(t, g)))
  {
    RotationsTall(t);
  }

  /** A rotation is at most one level higher than the side it takes from, by the stored heights. */
  lemma RotatedHeight(t: Tree)
    requires t.Node? && Tall(t.left) && Tall(t.right)
    ensures t.left.Node? && H(t.right) < H(t.left) ==> H(LL(t)) <= H(t.left) + 1
    ensures t.right.Node? && H(t.left) < H(t.right) ==> H(RR(t)) <= H(t.right) + 1
  {
  }

  lemma DoublyRotatedHeight(t: Tree)
    requires t.Node? && Tall(t.left) && Tall(t.right)
    ensures t.left.Node? && t.left.right.Node? && H(t.right) < H(t.left) ==> H(LR(t)) <= H(t.left) + 1
    ensures t.right.Node? && t.right.left.Node? && H(t.left) < H(t.right) ==> H(RL(t)) <= H(t.right) + 1
  {
  }

  /** A rotation after a removal does not make the tree higher, by the stored heights. */
  lemma ShrunkTall(t: Tree)
    requires Tall(t) && t.Node?
    ensures Tall(ShrunkLeft(t)) && H(ShrunkLeft(t)) <= H(t)
    ensures Tall(ShrunkRight(t)) && H(ShrunkRight(t)) <= H(t)
  {
    RotationsTall(t);
    RotatedHeight(t);
    DoublyRotatedHeight(t);
  }

  lemma {:induction false} DeleteTall(t: Tree, key: nat)
    requires Tall(t)
    ensures Tall(Delete(t, key)) && H(Delete(t, key)) <= H(t)
  {
    if t.Node? {
      if key < t.region.addr {
        DeleteTall(t.left, key);
        ShrunkTall(t.(left := Delete(t.left, key)));
      } else if key > t.region.addr {
        DeleteTall(t.right, key);
        ShrunkTall(t.(right := Delete(t.right, key)));
      } else if t.left.Node? && t.right.Node? {
        DeleteTall(t.left, MaxRegion(t.left).addr);
        DeleteTall(t.right, MinRegion(t.right).addr);
      }
    }
  }

  /** Along every history that does not crash, removals included: the stored height of the root is at
      least the true one, so a lookup visits at most that many nodes. */
  lemma {:induction false} HeightsCover(ops: seq<Op>, addr: nat, len: nat)
    requires SafeRun(ops)
    ensures Tall(Run(ops).root)
    ensures FindSteps(Run(ops).root, addr, len) <= Depth(Run(ops).root) <= H(Run(ops).root)
  {
    if ops != [] {
      var front, last := ops[..|ops| - 1], ops[|ops| - 1];
      HeightsCover(front, addr, len);
      match last
      case Add(g, memory) =>
        if g.len > 0 && g.item != 0 {
          InsertTall(Run(front).root, g, memory);
        }
      case Remove(a, n) =>
        if n > 0 && Find(Run(front).root, a, n).Hit? {
          DeleteTall(Run(front).root, Find(Run(front).root, a, n).region.addr);
        }
    }
    StepsAreDepth(Run(ops).root, addr, len);
    TallCovers(Run(ops).root);
  }

  // ---------- rebalancing ----------

  /** Where the left side has become two levels lower than the right, and heights are exact below, the
      rotation balances the node and makes all heights exact. */
  lemma ShrunkLeftBalances(t: Tree)
    requires t.Node? && Avl(t.left) && Avl(t.right) && H(t.right) == H(t.left) + 2
    ensures Avl(ShrunkLeft(t)) && H(t.right) <= H(ShrunkLeft(t)) <= H(t.right) + 1
  {
    var p := t.right;
    if H(p.left) > H(p.right) {
      RLBalanced(t);
    }
  }

  lemma ShrunkRightBalances(t: Tree)
    requires t.Node? && Avl(t.left) && Avl(t.right) && H(t.left) == H(t.right) + 2
    ensures Avl(ShrunkRight(t)) && H(t.left) <= H(ShrunkRight(t)) <= H(t.left) + 1
  {
    var p := t.left;
    if H(p.right) > H(p.left) {
      LRBalanced(t);
    }
  }

  lemma {:induction false} AvlIsExact(t: Tree)
    requires Avl(t)
    ensures Tall(t) && Depth(t) == H(t)
  {
    if t.Node? {
      AvlIsExact(t.left);
      AvlIsExact(t.right);
    }
  }

  /** One region taken from an end of a balanced tree lowers it by at most a level. */
  lemma {:induction false} TakeMaxLowers(t: Tree)
    requires Ordered(t) && Avl(t) && t.Node?
    ensures Depth(t) - 1 <= Depth(Delete(t, MaxRegion(t).addr)) <= Depth(t)
  {
    AvlIsExact(t);
    AvlIsExact(t.left);
    AvlIsExact(t.right);
    MaxIsLast(t);
    if t.right.Node? {
      MaxIsLast(t.right);
      assert t.region in Regions(t) && MaxRegion(t).addr > t.region.addr;
      TakeMaxLowers(t.right);
      var t1 := t.(right := Delete(t.right, MaxRegion(t).addr));
      DeleteTall(t.right, MaxRegion(t).addr);
      TallCovers(t1.right);
      ShrunkRightDepth(t1);
    }
  }

  lemma ShrunkRightDepth(t: Tree)
    requires t.Node? && Avl(t.left) && Tall(t.right) && Depth(t.left) <= Depth(t.right) + 2
    ensures Depth(t) - 1 <= Depth(ShrunkRight(t)) <= Depth(t)
  {
    AvlIsExact(t.left);
    TallCovers(t.right);
    if H(t.left) == H(t.right) + 2 {
      AvlIsExact(t.left.left);
      AvlIsExact(t.left.right);
      if H(t.left.right) > H(t.left.left) {
        LRDepth(t);
      } else {
        LLDepth(t);
      }
    }
  }

  lemma LLDepth(t: Tree)
    requires t.Node? && t.left.Node? && Depth(t.left) == Depth(t.right) + 2
    requires Depth(t.left.left) - 1 <= Depth(t.left.right) <= Depth(t.left.left)
    ensures Depth(t) - 1 <= Depth(LL(t)) <= Depth(t)
  {
  }

  lemma LRDepth(t: Tree)
    requires t.Node? && t.left.Node? && t.left.right.Node? && Avl(t.left) && Tall(t.right)
    requires Depth(t.left) == Depth(t.right) + 2 && Depth(t.left.left) < Depth(t.left.right)
    ensures Depth(LR(t)) == Depth(t.left)
  {
    AvlIsExact(t.left);
    AvlIsExact(t.left.left);
    AvlIsExact(t.left.right);
    AvlIsExact(t.left.right.left);
    AvlIsExact(t.left.right.right);
  }

  lemma {:induction false} TakeMinLowers(t: Tree)
    requires Ordered(t) && Avl(t) && t.Node?
    ensures Depth(t) - 1 <= Depth(Delete(t, MinRegion(t).addr)) <= Depth(t)
  {
    AvlIsExact(t);
    AvlIsExact(t.left);
    AvlIsExact(t.right);
    MinIsFirst(t);
    if t.left.Node? {
      MinIsFirst(t.left);
      RegionsNotEmpty(t);
      assert t.region in Regions(t) && MinRegion(t).addr < t.region.addr;
      TakeMinLowers(t.left);
      var t1 := t.(left := Delete(t.left, MinRegion(t).addr));
      DeleteTall(t.left, MinRegion(t).addr);
      TallCovers(t1.left);
      ShrunkLeftDepth(t1);
    }
  }

  lemma ShrunkLeftDepth(t: Tree)
    requires t.Node? && Avl(t.right) && Tall(t.left) && Depth(t.right) <= Depth(t.left) + 2
    ensures Depth(t) - 1 <= Depth(ShrunkLeft(t)) <= Depth(t)
  {
    AvlIsExact(t.right);
    TallCovers(t.left);
    if H(t.right) == H(t.left) + 2 {
      AvlIsExact(t.right.left);
      AvlIsExact(t.right.right);
      if H(t.right.left) > H(t.right.right) {
        RLDepth(t);
      } else {
        RRDepth(t);
      }
    }
  }

  lemma RRDepth(t: Tree)
    requires t.Node? && t.right.Node? && Depth(t.right) == Depth(t.left) + 2
    requires Depth(t.right.right) - 1 <= Depth(t.right.left) <= Depth(t.right.right)
    ensures Depth(t) - 1 <= Depth(RR(t)) <= Depth(t)
  {
  }

  lemma RLDepth(t: Tree)
    requires t.Node? && t.right.Node? && t.right.left.Node? && Avl(t.right) && Tall(t.left)
    requires Depth(t.right) == Depth(t.left) + 2 && Depth(t.right.right) < Depth(t.right.left)
    ensures Depth(RL(t)) == Depth(t.right)
  {
    AvlIsExact(t.right);
    AvlIsExact(t.right.left);
    AvlIsExact(t.right.right);
    AvlIsExact(t.right.left.left);
    AvlIsExact(t.right.left.right);
  }

  /** Removing the root of a balanced tree takes its neighbour from a side that is not lower, so that the
      two sides still differ by at most one level. */
  lemma RootStaysLevel(t: Tree)
    requires Ordered(t) && Avl(t) && t.Node? && t.left.Node? && t.right.Node?
    ensures var t' := Delete(t, t.region.addr);
            t'.Node? && Depth(t'.left) <= Depth(t'.right) + 1 && Depth(t'.right) <= Depth(t'.left) + 1
  {
    AvlIsExact(t.left);
    AvlIsExact(t.right);
    if H(t.left) > H(t.right) {
      TakeMaxLowers(t.left);
    } else {
      TakeMinLowers(t.right);
    }
  }
}
