/** The reader/writer spin lock and the double-checked creation of local copies under it, for any
    number of threads and any interleaving of their atomic steps. */
module CopyLock {
  import opened Shards
  import opened SmallTensors

  type Thread = nat

  /** Where a thread stands in GetOrCreateLocalTensorCopy. LockRead loads the state and then tries
      to exchange it; both locks may fail and start over. */
  datatype Pc =
    | WantRead
    | LoadedRead(expected: int)
    | Reading
    | LeavingRead(hit: bool, found: Copy)
    | WantWrite
    | Writing
    | Missed
    | Allocated(copy: Copy)
    | LeavingWrite(result: Copy)
    | Returned(result: Copy)

  /** `lock` is RWSpinLock's state_; `created` counts how often a copy was stored for a key. */
  datatype State = State(
    lock: int, cache: CopyCache, pc: map<Thread, Pc>, want: map<Thread, Request>, created: multiset<ShardedKey>)

  predicate InRead(p: Pc) { p.Reading? || p.LeavingRead? }

  predicate InWrite(p: Pc) { p.Writing? || p.Missed? || p.Allocated? || p.LeavingWrite? }

  ghost function ReadersIn(pc: map<Thread, Pc>): set<Thread> {
    set t | t in pc && InRead(pc[t])
  }

  ghost function WritersIn(pc: map<Thread, Pc>): set<Thread> {
    set t | t in pc && InWrite(pc[t])
  }

  ghost function Readers(s: State): set<Thread> { ReadersIn(s.pc) }

  ghost function Writers(s: State): set<Thread> { WritersIn(s.pc) }

  ghost predicate Init(s: State) {
    && s.lock == 0 && s.created == multiset{}
    && s.pc.Keys == s.want.Keys
    && (forall t | t in s.pc :: s.pc[t].WantRead? && s.want[t].itemSize > 0)
    && s.cache.limit <= s.cache.capacity && s.cache == Fresh(s.cache.limit, s.cache.capacity)
  }

  function To(s: State, t: Thread, p: Pc): State {
    s.(pc := s.pc[t := p])
  }

  /** One atomic step of thread t. `luck` is false when a weak exchange fails for no reason. */
  function Step(s: State, t: Thread, luck: bool): (s': State)
    requires t in s.pc && t in s.want && s.want[t].itemSize > 0
    ensures s'.pc.Keys == s.pc.Keys && s'.want == s.want
    ensures s'.pc == s.pc[t := s'.pc[t]]
  {
    var q := s.want[t];
    match s.pc[t]
    case WantRead => if s.lock >= 0 then To(s, t, LoadedRead(s.lock)) else s
    case LoadedRead(expected) =>
      if s.lock == expected && luck then To(s, t, Reading).(lock := expected + 1) else To(s, t, WantRead)
    case Reading =>
      To(s, t, if q.key in s.cache.copies then LeavingRead(true, s.cache.copies[q.key]) else LeavingRead(false, Own(0, 0)))
    case LeavingRead(hit, found) => To(s, t, if hit then Returned(found) else WantWrite).(lock := s.lock - 1)
    case WantWrite => if s.lock == 0 && luck then To(s, t, Writing).(lock := -1) else s
    case Writing => To(s, t, if q.key in s.cache.copies then LeavingWrite(s.cache.copies[q.key]) else Missed)
    case Missed =>
      var (cache, copy) := Allocate(s.cache, q);
      To(s, t, Allocated(copy)).(cache := cache)
    case Allocated(copy) =>
      To(s, t, LeavingWrite(copy)).(cache := Store(s.cache, q.key, copy), created := s.created + multiset{q.key})
    case LeavingWrite(result) => To(s, t, Returned(result)).(lock := 0)
    case Returned(_) => s
  }

  // ---------- the invariant ----------

  /** -1 with exactly one writer and no reader inside, otherwise the number of readers inside. */
  ghost predicate LockFits(s: State) {
    if s.lock < 0 then s.lock == -1 && |Writers(s)| == 1 && Readers(s) == {}
    else s.lock == |Readers(s)| && Writers(s) == {}
  }

  ghost predicate ThreadFits(s: State, t: Thread)
    requires t in s.pc && t in s.want
  {
    var key := s.want[t].key;
    match s.pc[t]
    case LoadedRead(expected) => expected >= 0
    case LeavingRead(hit, found) => hit ==> key in s.cache.copies && s.cache.copies[key] == found
    case Missed => key !in s.cache.copies
    case Allocated(copy) =>
      && key !in s.cache.copies && Placed(s.cache, copy) && MadeFor(copy, s.want[t], s.cache.limit)
      && forall k | k in s.cache.copies :: Separate(s.cache.copies[k], copy)
    case LeavingWrite(result) => key in s.cache.copies && s.cache.copies[key] == result
    case Returned(result) => key in s.cache.copies && s.cache.copies[key] == result
    case _ => true
  }

  /** The copy was made for the request of one of the threads that want this key. */
  ghost predicate MadeForOne(s: State, key: ShardedKey, copy: Copy) {
    exists u :: u in s.want && s.want[u].key == key && MadeFor(copy, s.want[u], s.cache.limit)
  }

  ghost predicate LockInv(s: State) {
    && s.pc.Keys == s.want.Keys && (forall t | t in s.want :: s.want[t].itemSize > 0)
    && LockFits(s)
    && (forall t | t in s.pc :: ThreadFits(s, t))
    && Inv(s.cache)
    && (forall key | key in s.cache.copies :: MadeForOne(s, key, s.cache.copies[key]))
    && (forall key :: s.created[key] == if key in s.cache.copies then 1 else 0)
  }

  lemma InitInv(s: State)
    requires Init(s)
    ensures LockInv(s)
  {
    assert Readers(s) == {} && Writers(s) == {};
  }

  /** A single writer excludes any other thread. */
  lemma OnlyWriter(s: State, t: Thread, u: Thread)
    requires LockFits(s) && t in s.pc && u in s.pc && t != u && InWrite(s.pc[t])
    ensures !InWrite(s.pc[u]) && !InRead(s.pc[u]) && s.lock == -1
  {
    assert t in Writers(s);
    assert |Writers(s) - {t}| == 0;
    assert u !in Writers(s) - {t} && u !in Readers(s);
  }

  lemma ReadersMove(pc: map<Thread, Pc>, t: Thread, p: Pc)
    requires t in pc
    ensures |ReadersIn(pc[t := p])| == |ReadersIn(pc) - {t}| + (if InRead(p) then 1 else 0)
    ensures |ReadersIn(pc)| == |ReadersIn(pc) - {t}| + (if InRead(pc[t]) then 1 else 0)
  {
    if InRead(p) {
      assert ReadersIn(pc[t := p]) == (ReadersIn(pc) - {t}) + {t};
    } else {
      assert ReadersIn(pc[t := p]) == ReadersIn(pc) - {t};
    }
  }

  lemma WritersMove(pc: map<Thread, Pc>, t: Thread, p: Pc)
    requires t in pc
    ensures |WritersIn(pc[t := p])| == |WritersIn(pc) - {t}| + (if InWrite(p) then 1 else 0)
    ensures |WritersIn(pc)| == |WritersIn(pc) - {t}| + (if InWrite(pc[t]) then 1 else 0)
  {
    if InWrite(p) {
      assert WritersIn(pc[t := p]) == (WritersIn(pc) - {t}) + {t};
    } else {
      assert WritersIn(pc[t := p]) == WritersIn(pc) - {t};
    }
  }

  /** LockFits, by counts alone. */
  lemma LockByCounts(s: State)
    ensures LockFits(s) <==>
      if s.lock < 0 then s.lock == -1 && |Writers(s)| == 1 && |Readers(s)| == 0
      else s.lock == |Readers(s)| && |Writers(s)| == 0
  {
  }

  lemma LockKept(s: State, t: Thread, luck: bool)
    requires s.pc.Keys == s.want.Keys && t in s.pc && s.want[t].itemSize > 0
    requires LockFits(s) && ThreadFits(s, t)
    ensures LockFits(Step(s, t, luck))
  {
    var s' := Step(s, t, luck);
    ReadersMove(s.pc, t, s'.pc[t]);
    WritersMove(s.pc, t, s'.pc[t]);
    LockByCounts(s);
    LockByCounts(s');
  }

  /** A step outside the write lock leaves the cache alone. */
  lemma CacheUntouched(s: State, t: Thread, luck: bool)
    requires s.pc.Keys == s.want.Keys && t in s.pc && s.want[t].itemSize > 0 && !InWrite(s.pc[t])
    ensures Step(s, t, luck).cache == s.cache
  {
  }

  lemma OwnThreadKept(s: State, t: Thread, luck: bool)
    requires s.pc.Keys == s.want.Keys && t in s.pc && s.want[t].itemSize > 0
    requires ThreadFits(s, t) && Inv(s.cache)
    ensures ThreadFits(Step(s, t, luck), t)
  {
    if s.pc[t].Missed? {
      AllocateFits(s.cache, s.want[t]);
    }
  }

  /** A thread that did not move still fits: copies are only added, and never while it writes. */
  lemma ThreadFrame(s: State, s': State, u: Thread)
    requires u in s.pc && u in s'.pc && s'.pc[u] == s.pc[u] && u in s.want && s'.want == s.want
    requires forall key | key in s.cache.copies :: key in s'.cache.copies && s'.cache.copies[key] == s.cache.copies[key]
    requires InWrite(s.pc[u]) ==> s'.cache == s.cache
    requires ThreadFits(s, u)
    ensures ThreadFits(s', u)
  {
  }

  lemma CacheKept(s: State, t: Thread, luck: bool)
    requires LockInv(s) && t in s.pc
    ensures Inv(Step(s, t, luck).cache)
    ensures forall key :: Step(s, t, luck).created[key] == if key in Step(s, t, luck).cache.copies then 1 else 0
    ensures forall key | key in s.cache.copies ::
      key in Step(s, t, luck).cache.copies && Step(s, t, luck).cache.copies[key] == s.cache.copies[key]
    ensures Step(s, t, luck).cache.limit == s.cache.limit && Step(s, t, luck).cache.capacity == s.cache.capacity
  {
    assert ThreadFits(s, t);
    match s.pc[t]
    case Missed => AllocateFits(s.cache, s.want[t]);
    case Allocated(copy) => StoreFits(s.cache, s.want[t].key, copy);
    case _ =>
  }

  lemma MakersKept(s: State, t: Thread, luck: bool, key: ShardedKey)
    requires LockInv(s) && t in s.pc && key in Step(s, t, luck).cache.copies
    ensures MadeForOne(Step(s, t, luck), key, Step(s, t, luck).cache.copies[key])
  {
    assert ThreadFits(s, t);
    if s.pc[t].Missed? {
      AllocateFits(s.cache, s.want[t]);
    }
    if key in s.cache.copies {
      assert MadeForOne(s, key, s.cache.copies[key]);
      var u :| u in s.want && s.want[u].key == key && MadeFor(s.cache.copies[key], s.want[u], s.cache.limit);
      CacheKept(s, t, luck);
      assert u in Step(s, t, luck).want;
    } else {
      assert s.pc[t].Allocated? && t in Step(s, t, luck).want;
    }
  }

  lemma WriterAlone(s: State, t: Thread, luck: bool, u: Thread)
    requires LockFits(s) && s.pc.Keys == s.want.Keys && t in s.pc && s.want[t].itemSize > 0
    requires u in s.pc && u != t && InWrite(s.pc[u])
    ensures Step(s, t, luck).cache == s.cache
  {
    OnlyWriter(s, u, t);
    CacheUntouched(s, t, luck);
  }

  lemma ThreadsKept(s: State, t: Thread, luck: bool, u: Thread)
    requires LockInv(s) && t in s.pc && u in s.pc
    ensures ThreadFits(Step(s, t, luck), u)
  {
    assert ThreadFits(s, t) && ThreadFits(s, u);
    if u == t {
      OwnThreadKept(s, t, luck);
    } else {
      CacheKept(s, t, luck);
      if InWrite(s.pc[u]) {
        WriterAlone(s, t, luck, u);
      }
      ThreadFrame(s, Step(s, t, luck), u);
    }
  }

  lemma StepInv(s: State, t: Thread, luck: bool)
    requires LockInv(s) && t in s.pc
    ensures LockInv(Step(s, t, luck))
  {
    LockKept(s, t, luck);
    CacheKept(s, t, luck);
    forall u | u in s.pc
      ensures ThreadFits(Step(s, t, luck), u)
    {
      ThreadsKept(s, t, luck, u);
    }
    forall key | key in Step(s, t, luck).cache.copies
      ensures MadeForOne(Step(s, t, luck), key, Step(s, t, luck).cache.copies[key])
    {
      MakersKept(s, t, luck, key);
    }
  }

  // ---------- whole runs ----------

  ghost predicate Next(s: State, s': State) {
    exists t, luck :: t in s.pc && t in s.want && s.want[t].itemSize > 0 && s' == Step(s, t, luck)
  }

  ghost predicate IsRun(run: seq<State>) {
    && run != [] && Init(run[0])
    && forall i | 0 <= i < |run| - 1 :: Next(run[i], run[i + 1])
  }

  lemma {:induction false} RunInv(run: seq<State>, i: nat)
    requires IsRun(run) && i < |run|
    ensures LockInv(run[i])
  {
    if i == 0 {
      InitInv(run[0]);
    } else {
      RunInv(run, i - 1);
      assert Next(run[i - 1], run[i - 1 + 1]);
      var t, luck :| t in run[i - 1].pc && t in run[i - 1].want && run[i - 1].want[t].itemSize > 0
                     && run[i] == Step(run[i - 1], t, luck);
      StepInv(run[i - 1], t, luck);
    }
  }

  /** Mutual exclusion in every state of every run: the lock shows -1 exactly when one writer and no
      reader is inside, and otherwise the number of readers inside. */
  lemma LockIsExclusive(run: seq<State>, i: nat)
    requires IsRun(run) && i < |run|
    ensures run[i].lock == -1 <==> |Writers(run[i])| == 1 && Readers(run[i]) == {}
    ensures run[i].lock != -1 ==> Writers(run[i]) == {} && run[i].lock == |Readers(run[i])|
  {
    RunInv(run, i);
  }

  /** Double-checked creation: at most one copy is ever made per key, and all callers that ask for
      the key get that one. */
  lemma OneCopyPerKey(run: seq<State>, i: nat, t: Thread, u: Thread)
    requires IsRun(run) && i < |run| && t in run[i].pc && u in run[i].pc
    requires t in run[i].want && u in run[i].want && run[i].want[t].key == run[i].want[u].key
    ensures run[i].created[run[i].want[t].key] <= 1
    ensures run[i].pc[t].Returned? && run[i].pc[u].Returned? ==> run[i].pc[t].result == run[i].pc[u].result
    ensures run[i].pc[t].Returned? ==> run[i].created[run[i].want[t].key] == 1
  {
    RunInv(run, i);
    assert ThreadFits(run[i], t) && ThreadFits(run[i], u);
  }

  /** The copies handed out under the lock: each made for the request of a thread that asked for its key,
      inside its buffer, and no byte shared with another. */
  lemma CopiesStaySafe(run: seq<State>, i: nat, t: Thread, u: Thread)
    requires IsRun(run) && i < |run| && t in run[i].pc && u in run[i].pc
    requires run[i].pc[t].Returned? && run[i].pc[u].Returned?
    ensures t in run[i].want && u in run[i].want
    ensures run[i].want[t].key != run[i].want[u].key ==> Separate(run[i].pc[t].result, run[i].pc[u].result)
    ensures MadeForOne(run[i], run[i].want[t].key, run[i].pc[t].result)
    ensures run[i].pc[t].result.Small? ==>
      run[i].pc[t].result.itemSize > 0 && EndByte(run[i].pc[t].result) <= run[i].cache.capacity
  {
    RunInv(run, i);
    assert ThreadFits(run[i], t) && ThreadFits(run[i], u);
  }

  // ---------- a thread that runs alone gets through ----------

  /** The thread has returned the copy of its key that was in the cache before, or else a new one made for
      its own request; the lock is free. */
  ghost predicate Served(s: State, t: Thread, before: CopyCache)
    requires t in s.pc && t in s.want
  {
    var q := s.want[t];
    && s.lock == 0 && s.pc[t].Returned? && q.key in s.cache.copies && s.cache.copies[q.key] == s.pc[t].result
    && GoodCopy(q, s.pc[t].result, before)
  }

  ghost predicate GoodCopy(q: Request, copy: Copy, before: CopyCache) {
    if q.key in before.copies then copy == before.copies[q.key] else MadeFor(copy, q, before.limit)
  }

  /** The thread alone gets there within n steps, if exchanges do not fail for no reason. */
  ghost predicate Within(s: State, t: Thread, n: nat, before: CopyCache)
    requires t in s.pc && t in s.want && s.want[t].itemSize > 0
    decreases n
  {
    Served(s, t, before) || (n > 0 && Within(Step(s, t, true), t, n - 1, before))
  }

  /** The thread, and the cache as it was. */
  predicate Starts(s: State, t: Thread, before: CopyCache) {
    t in s.pc && t in s.want && s.want[t].itemSize > 0 && s.cache == before
  }

  lemma FromLeavingWrite(s: State, t: Thread, n: nat, before: CopyCache)
    requires t in s.pc && t in s.want && s.want[t].itemSize > 0 && n >= 1 && s.pc[t].LeavingWrite?
    requires s.want[t].key in s.cache.copies && s.cache.copies[s.want[t].key] == s.pc[t].result
    requires GoodCopy(s.want[t], s.pc[t].result, before)
    ensures Within(s, t, n, before)
  {
    assert Served(Step(s, t, true), t, before);
  }

  lemma FromAllocated(s: State, t: Thread, before: CopyCache)
    requires t in s.pc && t in s.want && s.want[t].itemSize > 0 && s.pc[t].Allocated?
    requires GoodCopy(s.want[t], s.pc[t].copy, before)
    ensures Within(s, t, 2, before)
  {
    FromLeavingWrite(Step(s, t, true), t, 1, before);
  }

  lemma FromMissed(s: State, t: Thread, before: CopyCache)
    requires Starts(s, t, before) && Inv(before) && s.pc[t].Missed? && s.want[t].key !in before.copies
    ensures Within(s, t, 3, before)
  {
    AllocateFits(before, s.want[t]);
    FromAllocated(Step(s, t, true), t, before);
  }

  lemma FromWriting(s: State, t: Thread, before: CopyCache)
    requires Starts(s, t, before) && Inv(before) && s.pc[t].Writing?
    ensures Within(s, t, 4, before)
  {
    if s.want[t].key in before.copies {
      FromLeavingWrite(Step(s, t, true), t, 3, before);
    } else {
      FromMissed(Step(s, t, true), t, before);
    }
  }

  lemma FromWantWrite(s: State, t: Thread, before: CopyCache)
    requires Starts(s, t, before) && Inv(before) && s.pc[t].WantWrite? && s.lock == 0
    ensures Within(s, t, 5, before)
  {
    FromWriting(Step(s, t, true), t, before);
  }

  lemma FromReading(s: State, t: Thread, before: CopyCache)
    requires Starts(s, t, before) && Inv(before) && s.pc[t].Reading? && s.lock == 1
    ensures Within(s, t, 7, before)
  {
    var s1 := Step(s, t, true);
    var s2 := Step(s1, t, true);
    if s.want[t].key in before.copies {
      assert Served(s2, t, before);
    } else {
      FromWantWrite(s2, t, before);
    }
    assert Within(s2, t, 5, before);
    assert Within(s1, t, 6, before);
  }

  lemma FromLoadedRead(s: State, t: Thread, before: CopyCache)
    requires Starts(s, t, before) && Inv(before) && s.pc[t] == LoadedRead(0) && s.lock == 0
    ensures Within(s, t, 8, before)
  {
    FromReading(Step(s, t, true), t, before);
  }

  lemma FromWantRead(s: State, t: Thread, before: CopyCache)
    requires Starts(s, t, before) && Inv(before) && s.pc[t].WantRead? && s.lock == 0
    ensures Within(s, t, 9, before)
  {
    FromLoadedRead(Step(s, t, true), t, before);
  }

  lemma {:induction false} WithinMore(s: State, t: Thread, m: nat, n: nat, before: CopyCache)
    requires t in s.pc && t in s.want && s.want[t].itemSize > 0 && m <= n && Within(s, t, m, before)
    ensures Within(s, t, n, before)
    decreases m
  {
    if !Served(s, t, before) {
      WithinMore(Step(s, t, true), t, m - 1, n - 1, before);
    }
  }

  lemma FromOutside(s: State, t: Thread)
    requires Starts(s, t, s.cache) && Inv(s.cache) && s.lock == 0 && !InRead(s.pc[t]) && !InWrite(s.pc[t])
    requires s.pc[t].Returned? ==> s.want[t].key in s.cache.copies && s.cache.copies[s.want[t].key] == s.pc[t].result
    ensures Within(s, t, 10, s.cache)
  {
    match s.pc[t]
    case WantRead =>
      FromWantRead(s, t, s.cache);
      WithinMore(s, t, 9, 10, s.cache);
    case LoadedRead(expected) =>
      if expected == 0 {
        FromLoadedRead(s, t, s.cache);
        WithinMore(s, t, 8, 10, s.cache);
      } else {
        FromWantRead(Step(s, t, true), t, s.cache);
      }
    case WantWrite =>
      FromWantWrite(s, t, s.cache);
      WithinMore(s, t, 5, 10, s.cache);
    case Returned(_) =>
      assert Served(s, t, s.cache);
  }

  /** From any state of any run in which the lock is free, a thread that runs alone returns the copy of
      its key within ten steps. */
  lemma AloneGetsThrough(run: seq<State>, i: nat, t: Thread)
    requires IsRun(run) && i < |run| && t in run[i].pc && run[i].lock == 0
    ensures t in run[i].want && run[i].want[t].itemSize > 0
    ensures Within(run[i], t, 10, run[i].cache)
  {
    RunInv(run, i);
    assert ThreadFits(run[i], t);
    assert t !in Readers(run[i]) && t !in Writers(run[i]);
    FromOutside(run[i], t);
  }
}
