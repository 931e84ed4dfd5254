/** The registered-memory set: heap nodes that are linked and relinked in place. Every operation is
    proved to do to the linked nodes what its counterpart in AvlTree does to the tree. */
module MrSet {
  import opened AvlTree
  import opened RegionSets

  class AvlNode {
    var addr: nat
    var len: nat
    var item: nat
    var left: AvlNode?
    var right: AvlNode?
    var height: nat

    ghost var repr: set<AvlNode>
    ghost var tree: Tree

    /** The nodes below form a tree, `repr` is their set and `tree` their value. */
    ghost predicate Valid()
      reads this, repr
      ensures Valid() ==> this in repr && tree.Node?
    {
      && this in repr
      && (left != null ==> left in repr && left.repr <= repr && this !in left.repr && left.Valid())
      && (right != null ==> right in repr && right.repr <= repr && this !in right.repr && right.Valid())
      && Repr(left) !! Repr(right)
      && repr == {this} + Repr(left) + Repr(right)
      && tree == Node(TreeOf(left), Here(), height, TreeOf(right))
    }

    function Here(): Region
      reads this
    {
      Region(addr, len, item)
    }

    /** avl_node_create without children. */
    constructor (g: Region)
      ensures Valid() && fresh(repr)
      ensures tree == Node(Leaf, g, 0, Leaf)
    {
      addr, len, item := g.addr, g.len, g.item;
      left, right, height := null, null, 0;
      repr := {this};
      tree := Node(Leaf, g, 0, Leaf);
    }

    /** Assignments to pleft and pright. */
    method Attach(l: AvlNode?, r: AvlNode?)
      requires ValidTree(l) && ValidTree(r) && Repr(l) !! Repr(r) && this !in Repr(l) + Repr(r)
      modifies this
      ensures Valid() && repr == {this} + Repr(l) + Repr(r)
      ensures left == l && right == r && Here() == old(Here()) && height == old(height)
      ensures tree == Node(old(TreeOf(l)), Here(), height, old(TreeOf(r)))
    {
      left, right := l, r;
      repr := {this} + Repr(l) + Repr(r);
      tree := Node(TreeOf(l), Here(), height, TreeOf(r));
    }

    method UpdateHeight()
      requires Valid()
      modifies this
      ensures Valid() && repr == old(repr) && tree == Refresh(old(tree))
      ensures left == old(left) && right == old(right) && Here() == old(Here())
    {
      HeightIsH(left);
      HeightIsH(right);
      height := Boxes.Max(Height(left), Height(right)) + 1;
      tree := Refresh(tree);
    }
  }

  /** Attach children and recompute the height, as the rotations do. */
  method Relink(n: AvlNode, l: AvlNode?, r: AvlNode?)
    requires ValidTree(l) && ValidTree(r) && Repr(l) !! Repr(r) && n !in Repr(l) + Repr(r)
    modifies n
    ensures n.Valid() && n.repr == {n} + Repr(l) + Repr(r)
    ensures n.tree == Refresh(Node(old(TreeOf(l)), old(n.Here()), 0, old(TreeOf(r))))
  {
    n.Attach(l, r);
    n.UpdateHeight();
  }

  ghost function TreeOf(n: AvlNode?): Tree
    reads n
  {
    if n == null then Leaf else n.tree
  }

  ghost function Repr(n: AvlNode?): set<AvlNode>
    reads n
  {
    if n == null then {} else n.repr
  }

  ghost predicate ValidTree(n: AvlNode?)
    reads n, if n == null then {} else n.repr
  {
    n != null ==> n.Valid()
  }

  function Height(n: AvlNode?): nat
    reads n
  {
    if n == null then 0 else n.height
  }

  lemma HeightIsH(n: AvlNode?)
    requires ValidTree(n)
    ensures Height(n) == H(TreeOf(n))
  {
  }

  /** Three subtrees and two nodes that share nothing. */
  ghost predicate Apart(a: AvlNode?, b: AvlNode?, c: AvlNode?, m: AvlNode, n: AvlNode)
    reads a, b, c
  {
    && Repr(a) !! Repr(b) !! Repr(c) && m != n
    && m !in Repr(a) + Repr(b) + Repr(c) && n !in Repr(a) + Repr(b) + Repr(c)
  }

  /** n with subtree a on its left and root, holding b and c, on its right. */
  method HangRight(n: AvlNode, root: AvlNode, a: AvlNode?, b: AvlNode?, c: AvlNode?)
    requires ValidTree(a) && ValidTree(b) && ValidTree(c) && Apart(a, b, c, root, n)
    modifies root, n
    ensures n.Valid() && n.repr == {n} + old(Repr(a)) + ({root} + old(Repr(b)) + old(Repr(c)))
    ensures n.tree == Refresh(Node(old(TreeOf(a)), old(n.Here()), 0,
                                   Refresh(Node(old(TreeOf(b)), old(root.Here()), 0, old(TreeOf(c))))))
  {
    ghost var A, g, R := TreeOf(a), n.Here(), Repr(a);
    Relink(root, b, c);
    assert ValidTree(a) && TreeOf(a) == A && Repr(a) == R && n.Here() == g;
    assert R !! root.repr && n !in R + root.repr;
    Relink(n, a, root);
  }

  /** n with root, holding a and b, on its left and subtree c on its right. */
  method HangLeft(n: AvlNode, root: AvlNode, a: AvlNode?, b: AvlNode?, c: AvlNode?)
    requires ValidTree(a) && ValidTree(b) && ValidTree(c) && Apart(a, b, c, root, n)
    modifies root, n
    ensures n.Valid() && n.repr == {n} + ({root} + old(Repr(a)) + old(Repr(b))) + old(Repr(c))
    ensures n.tree == Refresh(Node(Refresh(Node(old(TreeOf(a)), old(root.Here()), 0, old(TreeOf(b)))),
                                   old(n.Here()), 0, old(TreeOf(c))))
  {
    ghost var C, g, R := TreeOf(c), n.Here(), Repr(c);
    Relink(root, a, b);
    assert ValidTree(c) && TreeOf(c) == C && Repr(c) == R && n.Here() == g;
    assert R !! root.repr && n !in R + root.repr;
    Relink(n, root, c);
  }

  lemma LeftParts(root: AvlNode)
    requires root.Valid() && root.left != null
    ensures var n := root.left;
            && ValidTree(n.left) && ValidTree(n.right) && ValidTree(root.right)
            && Apart(n.left, n.right, root.right, root, n)
            && root.repr == {n} + Repr(n.left) + ({root} + Repr(n.right) + Repr(root.right))
            && root.tree == Node(Node(TreeOf(n.left), n.Here(), n.height, TreeOf(n.right)),
                                 root.Here(), root.height, TreeOf(root.right))
  {
    assert root.left.Valid();
  }

  lemma RightParts(root: AvlNode)
    requires root.Valid() && root.right != null
    ensures var n := root.right;
            && ValidTree(root.left) && ValidTree(n.left) && ValidTree(n.right)
            && Apart(root.left, n.left, n.right, root, n)
            && root.repr == {n} + ({root} + Repr(root.left) + Repr(n.left)) + Repr(n.right)
            && root.tree == Node(TreeOf(root.left), root.Here(), root.height,
                                 Node(TreeOf(n.left), n.Here(), n.height, TreeOf(n.right)))
  {
    assert root.right.Valid();
  }

  method LLRotation(root: AvlNode) returns (n: AvlNode)
    requires root.Valid() && root.left != null
    modifies root, root.left
    ensures n.Valid() && n.repr == old(root.repr)
    ensures n.tree == LL(old(root.tree))
  {
    n := root.left;
    LeftParts(root);
    HangRight(n, root, n.left, n.right, root.right);
  }

  method RRRotation(root: AvlNode) returns (n: AvlNode)
    requires root.Valid() && root.right != null
    modifies root, root.right
    ensures n.Valid() && n.repr == old(root.repr)
    ensures n.tree == RR(old(root.tree))
  {
    n := root.right;
    RightParts(root);
    HangLeft(n, root, root.left, n.left, n.right);
  }

  method AttachThenLL(root: AvlNode, l: AvlNode, r: AvlNode?) returns (n: AvlNode)
    requires l.Valid() && ValidTree(r) && l.repr !! Repr(r) && root !in l.repr + Repr(r)
    modifies root, l
    ensures n.Valid() && n.repr == {root} + old(l.repr) + old(Repr(r))
    ensures n.tree == LL(old(Node(l.tree, root.Here(), root.height, TreeOf(r))))
  {
    root.Attach(l, r);
    n := LLRotation(root);
  }

  method AttachThenRR(root: AvlNode, l: AvlNode?, r: AvlNode) returns (n: AvlNode)
    requires ValidTree(l) && r.Valid() && Repr(l) !! r.repr && root !in Repr(l) + r.repr
    modifies root, r
    ensures n.Valid() && n.repr == {root} + old(Repr(l)) + old(r.repr)
    ensures n.tree == RR(old(Node(TreeOf(l), root.Here(), root.height, r.tree)))
  {
    root.Attach(l, r);
    n := RRRotation(root);
  }

  method LRRotation(root: AvlNode) returns (n: AvlNode)
    requires root.Valid() && root.left != null && root.left.right != null && root.tree.left.right.Node?
    modifies root.repr
    ensures n.Valid() && n.repr == old(root.repr)
    ensures n.tree == LR(old(root.tree))
  {
    var r := root.right;
    var l := RRRotation(root.left);
    n := AttachThenLL(root, l, r);
  }

  method RLRotation(root: AvlNode) returns (n: AvlNode)
    requires root.Valid() && root.right != null && root.right.left != null && root.tree.right.left.Node?
    modifies root.repr
    ensures n.Valid() && n.repr == old(root.repr)
    ensures n.tree == RL(old(root.tree))
  {
    var l := root.left;
    var r := LLRotation(root.right);
    n := AttachThenRR(root, l, r);
  }

  // ---------- insertion ----------

  method BalanceGrownRight(t: AvlNode, g: Region) returns (n: AvlNode)
    requires t.Valid() && RightSafe(t.tree, g)
    modifies t.repr
    ensures n.Valid() && n.repr == old(t.repr) && n.tree == GrownRight(old(t.tree), g)
  {
    HeightIsH(t.left);
    HeightIsH(t.right);
    n := t;
    if Height(t.right) - Height(t.left) == 2 {
      RightParts(t);
      if g.addr > t.right.addr {
        n := RRRotation(t);
      } else {
        n := RLRotation(t);
      }
    }
  }

  method BalanceGrownLeft(t: AvlNode, g: Region) returns (n: AvlNode)
    requires t.Valid() && LeftSafe(t.tree, g)
    modifies t.repr
    ensures n.Valid() && n.repr == old(t.repr) && n.tree == GrownLeft(old(t.tree), g)
  {
    HeightIsH(t.left);
    HeightIsH(t.right);
    n := t;
    if Height(t.left) - Height(t.right) == 2 {
      LeftParts(t);
      if g.addr < t.left.addr {
        n := LLRotation(t);
      } else {
        n := LRRotation(t);
      }
    }
  }

  /** The part of avl_insert behind its call for the right subtree. */
  method GrowRight(t: AvlNode, l: AvlNode?, r: AvlNode?, g: Region) returns (n: AvlNode)
    requires ValidTree(l) && ValidTree(r) && Repr(l) !! Repr(r) && t !in Repr(l) + Repr(r)
    requires RightSafe(Node(TreeOf(l), t.Here(), t.height, TreeOf(r)), g)
    modifies t, Repr(l), Repr(r)
    ensures n.Valid() && n.repr == {t} + old(Repr(l)) + old(Repr(r))
    ensures n.tree == Refresh(GrownRight(old(Node(TreeOf(l), t.Here(), t.height, TreeOf(r))), g))
  {
    t.Attach(l, r);
    n := BalanceGrownRight(t, g);
    n.UpdateHeight();
  }

  method GrowLeft(t: AvlNode, l: AvlNode?, r: AvlNode?, g: Region) returns (n: AvlNode)
    requires ValidTree(l) && ValidTree(r) && Repr(l) !! Repr(r) && t !in Repr(l) + Repr(r)
    requires LeftSafe(Node(TreeOf(l), t.Here(), t.height, TreeOf(r)), g)
    modifies t, Repr(l), Repr(r)
    ensures n.Valid() && n.repr == {t} + old(Repr(l)) + old(Repr(r))
    ensures n.tree == Refresh(GrownLeft(old(Node(TreeOf(l), t.Here(), t.height, TreeOf(r))), g))
  {
    t.Attach(l, r);
    n := BalanceGrownLeft(t, g);
    n.UpdateHeight();
  }

  /** avl_insert on linked nodes; `memory` says whether malloc succeeds. */
  method InsertNode(t: AvlNode?, g: Region, memory: bool) returns (n: AvlNode?, ok: bool)
    requires ValidTree(t) && InsertSafe(TreeOf(t), g, memory)
    modifies Repr(t)
    ensures ValidTree(n) && fresh(Repr(n) - old(Repr(t)))
    ensures (TreeOf(n), ok) == Insert(old(TreeOf(t)), g, memory)
    decreases TreeOf(t), 1
  {
    if t == null {
      if !memory {
        return null, false;
      }
      var node := new AvlNode(g);
      node.UpdateHeight();
      return node, true;
    }
    if g.addr >= t.addr + t.len {
      n, ok := InsertRight(t, g, memory);
    } else if g.addr + g.len <= t.addr {
      n, ok := InsertLeft(t, g, memory);
    } else {
      return t, false;
    }
  }

  method InsertRight(t: AvlNode, g: Region, memory: bool) returns (n: AvlNode, ok: bool)
    requires t.Valid() && InsertSafe(t.tree, g, memory) && g.addr >= End(t.tree.region)
    modifies t.repr
    ensures n.Valid() && fresh(n.repr - old(t.repr))
    ensures (n.tree, ok) == Insert(old(t.tree), g, memory)
    decreases t.tree, 0
  {
    var l, r := t.left, t.right;
    ghost var L, R, here, A := TreeOf(l), TreeOf(r), t.Here(), Repr(l);
    r, ok := InsertNode(r, g, memory);
    assert ValidTree(l) && TreeOf(l) == L && Repr(l) == A && t.Here() == here;
    assert TreeOf(r) == Insert(R, g, memory).0;
    n := GrowRight(t, l, r, g);
  }

  method InsertLeft(t: AvlNode, g: Region, memory: bool) returns (n: AvlNode, ok: bool)
    requires t.Valid() && InsertSafe(t.tree, g, memory) && g.addr < End(t.tree.region) && End(g) <= t.tree.region.addr
    modifies t.repr
    ensures n.Valid() && fresh(n.repr - old(t.repr))
    ensures (n.tree, ok) == Insert(old(t.tree), g, memory)
    decreases t.tree, 0
  {
    var l, r := t.left, t.right;
    ghost var L, R, here, A := TreeOf(l), TreeOf(r), t.Here(), Repr(r);
    l, ok := InsertNode(l, g, memory);
    assert ValidTree(r) && TreeOf(r) == R && Repr(r) == A && t.Here() == here;
    assert TreeOf(l) == Insert(L, g, memory).0;
    n := GrowLeft(t, l, r, g);
  }

  // ---------- finding and scanning ----------

  /** avl_find: the loop down the tree. `steps` counts the nodes it visits. */
  method FindNode(t: AvlNode?, addr: nat, len: nat) returns (n: AvlNode?, ghost steps: nat)
    requires ValidTree(t)
    ensures n == null <==> Find(TreeOf(t), addr, len).Nothing?
    ensures n != null ==> Hit(n.Here()) == Find(TreeOf(t), addr, len)
    ensures steps == FindSteps(TreeOf(t), addr, len)
  {
    n := t;
    steps := 0;
    while n != null
      invariant ValidTree(n)
      invariant Find(TreeOf(n), addr, len) == Find(TreeOf(t), addr, len)
      invariant steps + FindSteps(TreeOf(n), addr, len) == FindSteps(TreeOf(t), addr, len)
      decreases TreeOf(n)
    {
      assert n.Valid();
      steps := steps + 1;
      if addr + len <= n.addr {
        n := n.left;
      } else if addr >= n.addr + n.len {
        n := n.right;
      } else {
        if addr >= n.addr && addr + len <= n.addr + n.len {
          return;
        }
        return null, steps;
      }
    }
  }

  /** avl_max. */
  method MaxNode(t: AvlNode) returns (n: AvlNode)
    requires t.Valid()
    ensures n.Here() == MaxRegion(t.tree)
  {
    n := t;
    while n.right != null
      invariant n.Valid() && MaxRegion(n.tree) == MaxRegion(t.tree)
      decreases n.tree
    {
      assert n.right.Valid();
      n := n.right;
    }
  }

  /** avl_min. */
  method MinNode(t: AvlNode) returns (n: AvlNode)
    requires t.Valid()
    ensures n.Here() == MinRegion(t.tree)
  {
    n := t;
    while n.left != null
      invariant n.Valid() && MinRegion(n.tree) == MinRegion(t.tree)
      decreases n.tree
    {
      assert n.left.Valid();
      n := n.left;
    }
  }

  /** avl_scan: write the items of the tree, in order, from `index` on. */
  method ScanNode(t: AvlNode?, items: array<nat>, index: nat) returns (next: nat)
    requires ValidTree(t) && index + |InOrder(TreeOf(t))| <= items.Length
    modifies items
    ensures next == index + |InOrder(TreeOf(t))|
    ensures forall i | 0 <= i < index :: items[i] == old(items[i])
    ensures forall i | 0 <= i < |InOrder(TreeOf(t))| :: items[index + i] == InOrder(TreeOf(t))[i].item
    decreases TreeOf(t)
  {
    next := index;
    if t != null {
      ghost var l, r := InOrder(t.tree.left), InOrder(t.tree.right);
      var middle := ScanNode(t.left, items, index);
      items[middle] := t.item;
      next := ScanNode(t.right, items, middle + 1);
      forall i | 0 <= i < |InOrder(t.tree)|
        ensures items[index + i] == InOrder(t.tree)[i].item
      {
        if i > |l| {
          assert items[middle + 1 + (i - |l| - 1)] == r[i - |l| - 1].item;
        }
      }
    }
  }

  // ---------- removal ----------

  method BalanceShrunkLeft(t: AvlNode) returns (n: AvlNode)
    requires t.Valid()
    modifies t.repr
    ensures n.Valid() && n.repr == old(t.repr) && n.tree == ShrunkLeft(old(t.tree))
  {
    HeightIsH(t.left);
    HeightIsH(t.right);
    n := t;
    if Height(t.right) - Height(t.left) == 2 {
      RightParts(t);
      var p := t.right;
      HeightIsH(p.left);
      HeightIsH(p.right);
      if Height(p.left) > Height(p.right) {
        n := RLRotation(t);
      } else {
        n := RRRotation(t);
      }
    }
  }

  method BalanceShrunkRight(t: AvlNode) returns (n: AvlNode)
    requires t.Valid()
    modifies t.repr
    ensures n.Valid() && n.repr == old(t.repr) && n.tree == ShrunkRight(old(t.tree))
  {
    HeightIsH(t.left);
    HeightIsH(t.right);
    n := t;
    if Height(t.left) - Height(t.right) == 2 {
      LeftParts(t);
      var p := t.left;
      HeightIsH(p.left);
      HeightIsH(p.right);
      if Height(p.right) > Height(p.left) {
        n := LRRotation(t);
      } else {
        n := LLRotation(t);
      }
    }
  }

  /** Replace the children and, for avl_copy, the region of a node. */
  method Replace(t: AvlNode, g: Region, l: AvlNode?, r: AvlNode?)
    requires ValidTree(l) && ValidTree(r) && Repr(l) !! Repr(r) && t !in Repr(l) + Repr(r)
    modifies t
    ensures t.Valid() && t.repr == {t} + old(Repr(l)) + old(Repr(r))
    ensures t.tree == Node(old(TreeOf(l)), g, old(t.height), old(TreeOf(r)))
  {
    t.addr, t.len, t.item := g.addr, g.len, g.item;
    t.Attach(l, r);
  }

  /** avl_delete_node on linked nodes; `key` is the address of the node to remove. */
  method DeleteNode(t: AvlNode?, key: nat) returns (n: AvlNode?)
    requires ValidTree(t)
    modifies Repr(t)
    ensures ValidTree(n) && Repr(n) <= old(Repr(t))
    ensures TreeOf(n) == Delete(old(TreeOf(t)), key)
    decreases TreeOf(t), 2
  {
    if t == null {
      return null;
    }
    if key < t.addr {
      n := DeleteLeft(t, key);
    } else if key > t.addr {
      n := DeleteRight(t, key);
    } else if t.left != null && t.right != null {
      n := DeleteInner(t);
    } else if t.left != null {
      n := t.left;
    } else {
      n := t.right;
    }
  }

  method DeleteLeft(t: AvlNode, key: nat) returns (n: AvlNode)
    requires t.Valid() && key < t.tree.region.addr
    modifies t.repr
    ensures n.Valid() && n.repr <= old(t.repr) && n.tree == Delete(old(t.tree), key)
    decreases t.tree, 0
  {
    var l, r := t.left, t.right;
    ghost var R, g, A := TreeOf(r), t.Here(), Repr(r);
    l := DeleteNode(l, key);
    assert ValidTree(r) && TreeOf(r) == R && Repr(r) == A && t.Here() == g;
    t.Attach(l, r);
    n := BalanceShrunkLeft(t);
  }

  method DeleteRight(t: AvlNode, key: nat) returns (n: AvlNode)
    requires t.Valid() && key > t.tree.region.addr
    modifies t.repr
    ensures n.Valid() && n.repr <= old(t.repr) && n.tree == Delete(old(t.tree), key)
    decreases t.tree, 0
  {
    var l, r := t.left, t.right;
    ghost var L, g, A := TreeOf(l), t.Here(), Repr(l);
    r := DeleteNode(r, key);
    assert ValidTree(l) && TreeOf(l) == L && Repr(l) == A && t.Here() == g;
    t.Attach(l, r);
    n := BalanceShrunkRight(t);
  }

  /** The node to remove has two children: it takes over a neighbour's region. */
  method DeleteInner(t: AvlNode) returns (n: AvlNode)
    requires t.Valid() && t.left != null && t.right != null
    modifies t.repr
    ensures n.Valid() && n.repr <= old(t.repr) && n.tree == Delete(old(t.tree), old(t.addr))
    decreases t.tree, 1
  {
    HeightIsH(t.left);
    HeightIsH(t.right);
    if Height(t.left) > Height(t.right) {
      n := TakeMax(t);
    } else {
      n := TakeMin(t);
    }
  }

  method TakeMax(t: AvlNode) returns (n: AvlNode)
    requires t.Valid() && t.left != null && t.right != null && H(t.tree.left) > H(t.tree.right)
    modifies t.repr
    ensures n.Valid() && n.repr <= old(t.repr) && n.tree == Delete(old(t.tree), old(t.addr))
    decreases t.tree, 0
  {
    var l, r: AvlNode? := t.left, t.right;
    var m := MaxNode(t.left);
    var g := m.Here();
    ghost var R, A := TreeOf(r), Repr(r);
    l := DeleteNode(l, g.addr);
    assert ValidTree(r) && TreeOf(r) == R && Repr(r) == A;
    Replace(t, g, l, r);
    n := t;
  }

  method TakeMin(t: AvlNode) returns (n: AvlNode)
    requires t.Valid() && t.left != null && t.right != null && H(t.tree.left) <= H(t.tree.right)
    modifies t.repr
    ensures n.Valid() && n.repr <= old(t.repr) && n.tree == Delete(old(t.tree), old(t.addr))
    decreases t.tree, 0
  {
    var l, r: AvlNode? := t.left, t.right;
    var m := MinNode(t.right);
    var g := m.Here();
    ghost var L, A := TreeOf(l), Repr(l);
    r := DeleteNode(r, g.addr);
    assert ValidTree(l) && TreeOf(l) == L && Repr(l) == A;
    Replace(t, g, l, r);
    n := t;
  }

  // ---------- the set ----------

  /** Addresses are 64-bit; a range must not run past the end of the address space, where the
      sums of the code would wrap around. */
  const ADDRESS_SPACE: nat := 0x1_0000_0000_0000_0000

  class MemoryRegionSet {
    var root: AvlNode?
    var size: int

    ghost predicate Valid()
      reads this, root, Repr(root)
    {
      ValidTree(root)
    }

    ghost function State(): SetState
      reads this, root
    {
      SetState(TreeOf(root), size)
    }

    /** utrans_mr_set_init. */
    constructor ()
      ensures Valid() && State() == EMPTY && fresh(Repr(root))
    {
      root, size := null, 0;
    }

    /** utrans_mr_set_insert, where it follows no null pointer (RegionSets.CrashExactly); `memory` is
        the outcome of malloc. */
    method Insert(addr: nat, len: nat, item: nat, memory: bool) returns (code: int)
      requires Valid() && addr + len < ADDRESS_SPACE
      requires Safe(State(), Add(Region(addr, len, item), memory))
      modifies this, Repr(root)
      ensures Valid() && fresh(Repr(root) - old(Repr(root)))
      ensures (State(), code) == SetInsert(old(State()), Region(addr, len, item), memory)
    {
      if len == 0 || item == 0 {
        return -1;
      }
      var n, ok := InsertNode(root, Region(addr, len, item), memory);
      root := n;
      if ok {
        size := size + 1;
        return 0;
      }
      return 1;
    }

    /** utrans_mr_set_find. */
    method Find(addr: nat, len: nat) returns (item: nat)
      requires Valid() && addr + len < ADDRESS_SPACE
      ensures item == SetFind(State(), addr, len)
    {
      if len == 0 {
        return 0;
      }
      var n, steps := FindNode(root, addr, len);
      return if n == null then 0 else n.item;
    }

    /** utrans_mr_set_remove. */
    method Remove(addr: nat, len: nat) returns (item: nat)
      requires Valid() && addr + len < ADDRESS_SPACE
      modifies this, Repr(root)
      ensures Valid() && Repr(root) <= old(Repr(root))
      ensures (State(), item) == SetRemove(old(State()), addr, len)
    {
      if len == 0 {
        return 0;
      }
      var n, steps := FindNode(root, addr, len);
      if n == null {
        return 0;
      }
      item := n.item;
      var rest := DeleteNode(root, n.addr);
      root := rest;
      if item != 0 {
        size := size - 1;
      }
    }

    /** utrans_mr_set_getall: the items in address order; no array for an empty set or, when malloc
        fails, for any. `count` is what is written to psize, if anything is. */
    method GetAll(memory: bool) returns (items: array?<nat>, count: int)
      requires Valid() && size == Size(State().root)
      ensures items == null <==> State().root.Leaf? || !memory
      ensures State().root.Node? ==> count == size
      ensures items != null ==> fresh(items) && items.Length == |InOrder(State().root)| == count
      ensures items != null ==> forall i | 0 <= i < items.Length :: items[i] == InOrder(State().root)[i].item
    {
      ScanContents(TreeOf(root));
      items, count := null, 0;
      if size > 0 {
        if !memory {
          return null, size;
        }
        var buffer := new nat[size];
        count := ScanNode(root, buffer, 0);
        items := buffer;
        forall i | 0 <= i < items.Length
          ensures items[i] == InOrder(State().root)[i].item
        {
          assert items[0 + i] == InOrder(State().root)[i].item;
        }
      }
    }
  }
}
