/** The set of registered regions over whole histories of insertions and removals. */
module RegionSets {
  import opened AvlTree

  datatype SetState = SetState(root: Tree, size: int)

  const EMPTY: SetState := SetState(Leaf, 0)

  datatype Op = Add(g: Region, memory: bool) | Remove(addr: nat, len: nat)

  /** The operation follows no null pointer; only an insertion that reaches the tree can. */
  predicate Safe(s: SetState, op: Op) {
    op.Add? && op.g.len > 0 && op.g.item != 0 ==> InsertSafe(s.root, op.g, op.memory)
  }

  /** utrans_mr_set_insert: -1 for an empty region or a null item, else the failure flag. */
  function SetInsert(s: SetState, g: Region, memory: bool): (SetState, int)
    requires Safe(s, Add(g, memory))
  {
    if g.len == 0 || g.item == 0 then (s, -1) else
      var (root, ok) := Insert(s.root, g, memory);
      if ok then (SetState(root, s.size + 1), 0) else (SetState(root, s.size), 1)
  }

  /** utrans_mr_set_find: the item of the region that contains the range, or NULL. */
  function SetFind(s: SetState, addr: nat, len: nat): nat {
    if len == 0 then 0 else
      match Find(s.root, addr, len)
      case Nothing => 0
      case Hit(g) => g.item
  }

  /** utrans_mr_set_remove. */
  function SetRemove(s: SetState, addr: nat, len: nat): (SetState, nat) {
    if len == 0 then (s, 0) else
      match Find(s.root, addr, len)
      case Nothing => (s, 0)
      case Hit(g) => (SetState(Delete(s.root, g.addr), if g.item != 0 then s.size - 1 else s.size), g.item)
  }

  function Step(s: SetState, op: Op): SetState
    requires Safe(s, op)
  {
    match op
    case Add(g, memory) => SetInsert(s, g, memory).0
    case Remove(addr, len) => SetRemove(s, addr, len).0
  }

  /** The history does not crash: no operation of it follows a null pointer. */
  predicate SafeRun(ops: seq<Op>)
    decreases |ops|, 0
  {
    ops != [] ==> SafeRun(ops[..|ops| - 1]) && Safe(Run(ops[..|ops| - 1]), ops[|ops| - 1])
  }

  function Run(ops: seq<Op>): SetState
    requires SafeRun(ops)
    decreases |ops|, 1
  {
    if ops == [] then EMPTY else Step(Run(ops[..|ops| - 1]), ops[|ops| - 1])
  }

  // ---------- the plain set it stands for ----------

  /** The region overlaps none of these. */
  ghost predicate Apart(regions: set<Region>, g: Region) {
    forall x | x in regions :: End(x) <= g.addr || End(g) <= x.addr
  }

  ghost predicate Accepted(regions: set<Region>, g: Region, memory: bool) {
    g.len > 0 && g.item != 0 && memory && Apart(regions, g)
  }

  ghost function PlainStep(regions: set<Region>, op: Op): set<Region> {
    match op
    case Add(g, memory) => if Accepted(regions, g, memory) then regions + {g} else regions
    case Remove(addr, len) => set g | g in regions && !(len > 0 && Holds(g, addr, len))
  }

  ghost function PlainRun(ops: seq<Op>): set<Region> {
    if ops == [] then {} else PlainStep(PlainRun(ops[..|ops| - 1]), ops[|ops| - 1])
  }

  /** The tree holds exactly these regions, in order, and counts them. */
  ghost predicate Represents(s: SetState, regions: set<Region>) {
    && Ordered(s.root)
    && Regions(s.root) == regions
    && s.size == Size(s.root) == |regions|
    && forall g | g in regions :: g.item != 0
  }

  /** An insertion has a result if heights are exact or the region fits. Where it has one, exactly the
      regions that fit are added, and a rejected one keeps the set; with exact heights it changes
      nothing at all. */
  lemma AddStep(s: SetState, regions: set<Region>, g: Region, memory: bool)
    requires Represents(s, regions)
    ensures Avl(s.root) || Accepted(regions, g, memory) ==> Safe(s, Add(g, memory))
    ensures Safe(s, Add(g, memory)) ==>
              && Represents(Step(s, Add(g, memory)), PlainStep(regions, Add(g, memory)))
              && (SetInsert(s, g, memory).1 == 0 <==> Accepted(regions, g, memory))
              && (Avl(s.root) && !Accepted(regions, g, memory) ==> Step(s, Add(g, memory)) == s)
              && (Avl(s.root) ==> Avl(Step(s, Add(g, memory)).root))
  {
    if Accepted(regions, g, memory) {
      AcceptedStep(s, regions, g);
    } else if g.len > 0 && g.item != 0 {
      if Avl(s.root) {
        RejectChangesNothing(s.root, g, memory);
      }
      if Safe(s, Add(g, memory)) {
        RejectKeeps(s.root, g, memory);
        CountRegions(Insert(s.root, g, memory).0);
      }
    }
  }

  lemma AcceptedStep(s: SetState, regions: set<Region>, g: Region)
    requires Represents(s, regions) && Accepted(regions, g, true)
    ensures Safe(s, Add(g, true)) && SetInsert(s, g, true).1 == 0
    ensures Represents(Step(s, Add(g, true)), regions + {g})
    ensures Avl(s.root) ==> Avl(Step(s, Add(g, true)).root)
  {
    InsertAdds(s.root, g);
    if Avl(s.root) {
      InsertKeepsAvl(s.root, g);
    }
    CountRegions(Insert(s.root, g, true).0);
    assert g !in regions;
  }

  lemma RemoveStep(s: SetState, regions: set<Region>, addr: nat, len: nat)
    requires Represents(s, regions)
    ensures Represents(Step(s, Remove(addr, len)), PlainStep(regions, Remove(addr, len)))
    ensures PlainStep(regions, Remove(addr, len)) == regions ==> Step(s, Remove(addr, len)) == s
  {
    if len > 0 {
      match Find(s.root, addr, len)
      case Nothing =>
        forall g | g in regions
          ensures !Holds(g, addr, len)
        {
          FindIsScan(s.root, addr, len, g);
        }
        assert PlainStep(regions, Remove(addr, len)) == regions;
      case Hit(h) =>
        HitIsRemoved(s.root, addr, len, h);
        CountRegions(Delete(s.root, h.addr));
    } else {
      assert PlainStep(regions, Remove(addr, len)) == regions;
    }
  }

  /** Removing at the hit's address takes out the hit alone: the one region that holds the range. */
  lemma HitIsRemoved(t: Tree, addr: nat, len: nat, h: Region)
    requires Ordered(t) && len > 0 && Find(t, addr, len) == Hit(h)
    ensures h in Regions(t) && Ordered(Delete(t, h.addr))
    ensures Regions(Delete(t, h.addr)) == Regions(t) - {h} == PlainStep(Regions(t), Remove(addr, len))
  {
    FindIsScan(t, addr, len, h);
    DeleteRemoves(t, h.addr);
    forall g | g in Regions(t)
      ensures g.addr == h.addr <==> g == h
      ensures Holds(g, addr, len) <==> g == h
    {
      FindIsScan(t, addr, len, g);
      if g.addr == h.addr {
        SameStart(t, g, h);
      }
    }
    assert Without(Regions(t), h.addr) == Regions(t) - {h};
  }

  /** Two regions of a tree never start at the same address. */
  lemma {:induction false} SameStart(t: Tree, g: Region, h: Region)
    requires Ordered(t) && g in Regions(t) && h in Regions(t) && g.addr == h.addr
    ensures g == h
  {
    RegionsNotEmpty(t);
    if g in Regions(t.left) && h in Regions(t.left) {
      SameStart(t.left, g, h);
    } else if g in Regions(t.right) && h in Regions(t.right) {
      SameStart(t.right, g, h);
    }
  }

  // ---------- histories ----------

  /** No removal took a region out. */
  ghost predicate NothingTaken(ops: seq<Op>) {
    ops != [] ==>
      && NothingTaken(ops[..|ops| - 1])
      && (ops[|ops| - 1].Remove? ==> PlainRun(ops) == PlainRun(ops[..|ops| - 1]))
  }

  /** Along every history that does not crash the tree represents the plain set; as long as no region
      is taken out, heights are exact and the tree is balanced. */
  lemma {:induction false} History(ops: seq<Op>)
    requires SafeRun(ops)
    ensures Represents(Run(ops), PlainRun(ops))
    ensures NothingTaken(ops) ==> Avl(Run(ops).root)
  {
    if ops != [] {
      var front, last := ops[..|ops| - 1], ops[|ops| - 1];
      History(front);
      match last
      case Add(g, memory) => AddStep(Run(front), PlainRun(front), g, memory);
      case Remove(addr, len) => RemoveStep(Run(front), PlainRun(front), addr, len);
    }
  }

  /** What a caller can know from the plain set: insertions are rejected only before the first region
      is taken out. */
  ghost predicate RejectsComeFirst(ops: seq<Op>) {
    ops != [] ==>
      var front, last := ops[..|ops| - 1], ops[|ops| - 1];
      && RejectsComeFirst(front)
      && (last.Add? && last.g.len > 0 && last.g.item != 0 ==>
            NothingTaken(front) || Accepted(PlainRun(front), last.g, last.memory))
  }

  /** Such a history does not crash. */
  lemma {:induction false} SafeHistory(ops: seq<Op>)
    requires RejectsComeFirst(ops)
    ensures SafeRun(ops)
  {
    if ops != [] {
      var front, last := ops[..|ops| - 1], ops[|ops| - 1];
      SafeHistory(front);
      History(front);
      if last.Add? {
        AddStep(Run(front), PlainRun(front), last.g, last.memory);
      }
    }
  }

  /** A history crashes exactly at its first insertion that asks for a rotation around a missing node.
      That one is rejected, and it comes after a removal that took a region out. */
  lemma {:induction false} CrashExactly(ops: seq<Op>)
    ensures !SafeRun(ops) <==> exists i :: CrashesAt(ops, i)
    ensures forall i | CrashesAt(ops, i) ::
              !NothingTaken(ops[..i]) && !Accepted(PlainRun(ops[..i]), ops[i].g, ops[i].memory)
  {
    forall i | CrashesAt(ops, i)
      ensures !SafeRun(ops)
      ensures !NothingTaken(ops[..i]) && !Accepted(PlainRun(ops[..i]), ops[i].g, ops[i].memory)
    {
      History(ops[..i]);
      AddStep(Run(ops[..i]), PlainRun(ops[..i]), ops[i].g, ops[i].memory);
      assert ops[..i + 1][..i] == ops[..i];
      PrefixIsSafe(ops, i + 1);
    }
    if !SafeRun(ops) {
      FirstCrash(ops);
    }
  }

  ghost predicate CrashesAt(ops: seq<Op>, i: int) {
    0 <= i < |ops| && SafeRun(ops[..i]) && !Safe(Run(ops[..i]), ops[i])
  }

  lemma {:induction false} FirstCrash(ops: seq<Op>)
    requires !SafeRun(ops)
    ensures exists i :: CrashesAt(ops, i)
  {
    var n := |ops| - 1;
    if SafeRun(ops[..n]) {
      assert CrashesAt(ops, n);
    } else {
      FirstCrash(ops[..n]);
      var i :| CrashesAt(ops[..n], i);
      assert ops[..n][..i] == ops[..i];
      assert CrashesAt(ops, i);
    }
  }

  lemma {:induction false} PrefixIsSafe(ops: seq<Op>, n: nat)
    requires n <= |ops|
    ensures SafeRun(ops) ==> SafeRun(ops[..n])
  {
    if n == |ops| {
      assert ops[..n] == ops;
    } else {
      PrefixIsSafe(ops[..|ops| - 1], n);
      assert ops[..|ops| - 1][..n] == ops[..n];
    }
  }

  /** An insertion never follows a null pointer if no region was taken out before, or if it is accepted. */
  lemma InsertionIsSafe(ops: seq<Op>, g: Region, memory: bool)
    requires SafeRun(ops) && (NothingTaken(ops) || Accepted(PlainRun(ops), g, memory))
    ensures Safe(Run(ops), Add(g, memory))
  {
    History(ops);
    AddStep(Run(ops), PlainRun(ops), g, memory);
  }

  // ---------- a history that crashes ----------

  lemma RunStep(ops: seq<Op>, op: Op)
    requires SafeRun(ops)
    ensures SafeRun(ops + [op]) <==> Safe(Run(ops), op)
    ensures Safe(Run(ops), op) ==> Run(ops + [op]) == Step(Run(ops), op)
  {
    assert (ops + [op])[..|ops|] == ops;
  }

  /** The node of a region of five bytes, and the operation that adds the region. */
  function At(addr: nat, left: Tree, height: nat, right: Tree): Tree {
    Node(left, Region(addr, 5, 1), height, right)
  }

  function Add5(addr: nat): Op { Add(Region(addr, 5, 1), true) }

  const FULL: seq<Op> := [Add5(40), Add5(30), Add5(80), Add5(20), Add5(70)]

  const STALE: seq<Op> := FULL + [Remove(70, 5), Remove(40, 5)]

  lemma FullTree()
    ensures SafeRun(FULL)
    ensures Run(FULL) == SetState(At(40, At(30, At(20, Leaf, 1, Leaf), 2, Leaf), 3, At(80, At(70, Leaf, 1, Leaf), 2, Leaf)), 5)
  {
    RunStep([], Add5(40));
    assert [] + [Add5(40)] == [Add5(40)];
    RunStep([Add5(40)], Add5(30));
    assert [Add5(40)] + [Add5(30)] == [Add5(40), Add5(30)];
    assert Run([Add5(40), Add5(30)]) == SetState(At(40, At(30, Leaf, 1, Leaf), 2, Leaf), 2);
    RunStep([Add5(40), Add5(30)], Add5(80));
    assert [Add5(40), Add5(30)] + [Add5(80)] == [Add5(40), Add5(30), Add5(80)];
    assert Run([Add5(40), Add5(30), Add5(80)]) == SetState(At(40, At(30, Leaf, 1, Leaf), 2, At(80, Leaf, 1, Leaf)), 3);
    RunStep([Add5(40), Add5(30), Add5(80)], Add5(20));
    assert [Add5(40), Add5(30), Add5(80)] + [Add5(20)] == [Add5(40), Add5(30), Add5(80), Add5(20)];
    assert Run([Add5(40), Add5(30), Add5(80), Add5(20)])
        == SetState(At(40, At(30, At(20, Leaf, 1, Leaf), 2, Leaf), 3, At(80, Leaf, 1, Leaf)), 4);
    RunStep([Add5(40), Add5(30), Add5(80), Add5(20)], Add5(70));
    assert [Add5(40), Add5(30), Add5(80), Add5(20)] + [Add5(70)] == FULL;
  }

  lemma StaleTree()
    ensures SafeRun(STALE)
    ensures Run(STALE) == SetState(At(80, At(30, At(20, Leaf, 1, Leaf), 2, Leaf), 3, Leaf), 3)
  {
    FullTree();
    RunStep(FULL, Remove(70, 5));
    var left := At(30, At(20, Leaf, 1, Leaf), 2, Leaf);
    assert Run(FULL + [Remove(70, 5)]) == SetState(At(40, left, 3, At(80, Leaf, 2, Leaf)), 4);
    RunStep(FULL + [Remove(70, 5)], Remove(40, 5));
    assert FULL + [Remove(70, 5)] + [Remove(40, 5)] == STALE;
  }

  /** Five regions are added and two removed. Inserting one that is still there then crashes. */
  lemma StaleRejectCrashes()
    ensures SafeRun(STALE) && !SafeRun(STALE + [Add5(30)])
    ensures Region(30, 5, 1) in PlainRun(STALE)
  {
    StaleTree();
    RunStep(STALE, Add5(30));
    History(STALE);
  }

  // ---------- lookups ----------

  lemma {:induction false} NothingTakenIsSafe(ops: seq<Op>)
    requires NothingTaken(ops)
    ensures RejectsComeFirst(ops)
  {
    if ops != [] {
      NothingTakenIsSafe(ops[..|ops| - 1]);
    }
  }

  /** As long as no region is taken out, insertions accepted or rejected: a tree of height h holds at
      least Fib(h + 2) - 1 regions, and a lookup visits at most h nodes. */
  lemma LookupCost(ops: seq<Op>, addr: nat, len: nat)
    requires NothingTaken(ops)
    ensures SafeRun(ops) && FindSteps(Run(ops).root, addr, len) <= H(Run(ops).root)
    ensures Fib(H(Run(ops).root) + 2) <= |PlainRun(ops)| + 1
  {
    NothingTakenIsSafe(ops);
    SafeHistory(ops);
    History(ops);
    FindStepsBound(Run(ops).root, addr, len);
    HeightBound(Run(ops).root);
  }

  /** A lookup equals a linear scan of the plain set, and is unique. */
  lemma LookupIsScan(ops: seq<Op>, addr: nat, len: nat, g: Region)
    requires SafeRun(ops) && len > 0
    requires g in PlainRun(ops) && Holds(g, addr, len)
    ensures SetFind(Run(ops), addr, len) == g.item != 0
  {
    History(ops);
    FindIsScan(Run(ops).root, addr, len, g);
  }

  lemma LookupMisses(ops: seq<Op>, addr: nat, len: nat)
    requires SafeRun(ops)
    requires forall g | g in PlainRun(ops) :: !(len > 0 && Holds(g, addr, len))
    ensures SetFind(Run(ops), addr, len) == 0
    ensures SetRemove(Run(ops), addr, len) == (Run(ops), 0)
  {
    History(ops);
    if len > 0 && Find(Run(ops).root, addr, len).Hit? {
      FindIsScan(Run(ops).root, addr, len, Find(Run(ops).root, addr, len).region);
    }
  }

  // ---------- what the operations return ----------

  /** Remove returns the item of the region it takes out. */
  lemma RemoveReturns(ops: seq<Op>, addr: nat, len: nat, g: Region)
    requires SafeRun(ops) && len > 0
    requires g in PlainRun(ops) && Holds(g, addr, len)
    ensures SetRemove(Run(ops), addr, len).1 == g.item != 0
    ensures Represents(SetRemove(Run(ops), addr, len).0, PlainRun(ops) - {g})
  {
    History(ops);
    FindIsScan(Run(ops).root, addr, len, g);
    HitIsRemoved(Run(ops).root, addr, len, g);
    RemoveStep(Run(ops), PlainRun(ops), addr, len);
  }

  lemma CodeIsZero(s: SetState, regions: set<Region>, g: Region, memory: bool)
    requires Represents(s, regions) && Safe(s, Add(g, memory))
    ensures SetInsert(s, g, memory).1 == 0 <==> Accepted(regions, g, memory)
  {
    AddStep(s, regions, g, memory);
  }

  /** The code of an insertion: -1 for a region that is empty or has no item, 0 if it was added, and 1 if
      it overlaps another or there was no memory. */
  lemma InsertCodes(ops: seq<Op>, g: Region, memory: bool)
    requires SafeRun(ops) && Safe(Run(ops), Add(g, memory))
    ensures var code, fits := SetInsert(Run(ops), g, memory).1, Apart(PlainRun(ops), g);
            && (code == -1 <==> g.len == 0 || g.item == 0)
            && (code == 0 <==> g.len > 0 && g.item != 0 && memory && fits)
            && (code == 1 <==> g.len > 0 && g.item != 0 && !(memory && fits))
  {
    History(ops);
    CodeIsZero(Run(ops), PlainRun(ops), g, memory);
  }

  /** A region that was registered is found, and given back once: removing it leaves the set as before. */
  lemma RegisteredOnce(ops: seq<Op>, g: Region)
    requires SafeRun(ops) && Accepted(PlainRun(ops), g, true)
    ensures SafeRun(ops + [Add(g, true)])
    ensures var s := Run(ops + [Add(g, true)]);
            && SetFind(s, g.addr, g.len) == SetRemove(s, g.addr, g.len).1 == g.item
            && Represents(SetRemove(s, g.addr, g.len).0, PlainRun(ops))
            && SetFind(SetRemove(s, g.addr, g.len).0, g.addr, g.len) == 0
  {
    InsertionIsSafe(ops, g, true);
    RunStep(ops, Add(g, true));
    var more := ops + [Add(g, true)];
    assert more[..|ops|] == ops;
    LookupIsScan(more, g.addr, g.len, g);
    RemoveReturns(more, g.addr, g.len, g);
    var after := SetRemove(Run(more), g.addr, g.len).0;
    assert g !in PlainRun(ops);
    assert PlainRun(more) - {g} == PlainRun(ops);
    if Find(after.root, g.addr, g.len).Hit? {
      FindIsScan(after.root, g.addr, g.len, Find(after.root, g.addr, g.len).region);
    }
  }
}
