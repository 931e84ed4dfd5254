/** The reader's cache of remote tensor metadata. Writers publish metadata in the first round only;
    later rounds take over the entry of the round before. */
module MetaCache {
  import opened Shards
  import opened ReadPath

  datatype CacheState = CacheState(cache: map<int, TransferMeta>, isPublishMeta: bool, lastCompletedSeqId: int)

  // ---------- publishing ----------

  /** IsShapeEqual: sizes and strides agree in as many dimensions as `a` has. (With fewer in `b` the
      code would read past its end; here that counts as a difference.) */
  predicate ShapeAgrees(a: TensorMeta, b: TensorMeta) {
    a.size <= b.size && a.stride <= b.stride
  }

  /** EmplaceTensorRDMAInfo: append a replica, unless its shape differs from the last one's. */
  function Emplace(meta: TransferMeta, key: ShardedKey, replica: Replica): TransferMeta {
    if key in meta && meta[key] != [] then
      if ShapeAgrees(Last(meta[key]).tensor, replica.tensor) then meta[key := meta[key] + [replica]] else meta
    else meta[key := [replica]]
  }

  type Entry = (ShardedKey, Replica)

  /** Entries added one after the other. */
  function EmplaceAll(meta: TransferMeta, entries: seq<Entry>): TransferMeta
    decreases |entries|
  {
    if entries == [] then meta else EmplaceAll(Emplace(meta, entries[0].0, entries[0].1), entries[1..])
  }

  /** The entry does not fit what is known of its key: the code throws. */
  predicate Mismatch(meta: TransferMeta, key: ShardedKey, replica: Replica) {
    key in meta && meta[key] != [] && !ShapeAgrees(Last(meta[key]).tensor, replica.tensor)
  }

  /** The entries of a message that are added: those in front of the first that does not fit. */
  function Fitting(meta: TransferMeta, entries: seq<Entry>): seq<Entry>
    decreases |entries|
  {
    if entries == [] || Mismatch(meta, entries[0].0, entries[0].1) then [] else
      [entries[0]] + Fitting(Emplace(meta, entries[0].0, entries[0].1), entries[1..])
  }

  // ---------- what is added, by the entries alone ----------

  function KeysOf(entries: seq<Entry>): set<ShardedKey> {
    set i | 0 <= i < |entries| :: entries[i].0
  }

  /** The replicas sent under a key, in the order of the entries. */
  function Under(entries: seq<Entry>, key: ShardedKey): seq<Replica> {
    if entries == [] then [] else
      var last := entries[|entries| - 1];
      Under(entries[..|entries| - 1], key) + (if last.0 == key then [last.1] else [])
  }

  function Known(meta: TransferMeta, key: ShardedKey): seq<Replica> {
    if key in meta then meta[key] else []
  }

  /** Exactly the replicas of these entries were added, each to the end of the list of its key. */
  ghost predicate Extended(before: TransferMeta, after: TransferMeta, entries: seq<Entry>) {
    forall key :: ExtendedAt(before, after, entries, key)
  }

  predicate ExtendedAt(before: TransferMeta, after: TransferMeta, entries: seq<Entry>, key: ShardedKey) {
    && (key in after <==> key in before || key in KeysOf(entries))
    && Known(after, key) == Known(before, key) + Under(entries, key)
  }

  ghost predicate NoEmptyList(meta: TransferMeta) {
    forall key | key in meta :: meta[key] != []
  }

  lemma OneMoreEntry(entries: seq<Entry>, e: Entry, key: ShardedKey)
    ensures Under(entries + [e], key) == Under(entries, key) + (if e.0 == key then [e.1] else [])
    ensures KeysOf(entries + [e]) == KeysOf(entries) + {e.0}
  {
    var more := entries + [e];
    assert more[..|entries|] == entries && more[|entries|] == e;
    assert forall i | 0 <= i < |entries| :: more[i] == entries[i];
  }

  lemma ExtendedNext(before: TransferMeta, meta: TransferMeta, entries: seq<Entry>, e: Entry)
    requires Extended(before, meta, entries) && NoEmptyList(meta) && !Mismatch(meta, e.0, e.1)
    ensures Extended(before, Emplace(meta, e.0, e.1), entries + [e]) && NoEmptyList(Emplace(meta, e.0, e.1))
  {
    forall key
      ensures ExtendedAt(before, Emplace(meta, e.0, e.1), entries + [e], key)
    {
      assert ExtendedAt(before, meta, entries, key);
      ExtendedOneKey(before, meta, entries, e, key);
    }
  }

  lemma ExtendedOneKey(before: TransferMeta, meta: TransferMeta, entries: seq<Entry>, e: Entry, key: ShardedKey)
    requires ExtendedAt(before, meta, entries, key) && NoEmptyList(meta) && !Mismatch(meta, e.0, e.1)
    ensures ExtendedAt(before, Emplace(meta, e.0, e.1), entries + [e], key)
  {
    OneMoreEntry(entries, e, key);
    assert Known(Emplace(meta, e.0, e.1), key) == Known(meta, key) + (if e.0 == key then [e.1] else []);
  }

  /** Entry i does not fit: in some dimension it differs from the last replica known under its key. */
  predicate Differs(before: TransferMeta, entries: seq<Entry>, i: int)
    requires 0 <= i < |entries|
  {
    var list, tensor := Known(before, entries[i].0) + Under(entries[..i], entries[i].0), entries[i].1.tensor;
    list != [] && !(Last(list).tensor.size <= tensor.size && Last(list).tensor.stride <= tensor.stride)
  }

  /** The first n entries are added: those in front of the first that differs. */
  ghost predicate AddsFirst(before: TransferMeta, after: TransferMeta, entries: seq<Entry>, n: int) {
    && 0 <= n <= |entries| && Extended(before, after, entries[..n])
    && (forall i | 0 <= i < n :: !Differs(before, entries, i))
    && (n < |entries| ==> Differs(before, entries, n))
  }

  lemma MismatchDiffers(before: TransferMeta, meta: TransferMeta, entries: seq<Entry>, i: nat)
    requires i < |entries| && Extended(before, meta, entries[..i]) && NoEmptyList(meta)
    ensures Mismatch(meta, entries[i].0, entries[i].1) <==> Differs(before, entries, i)
  {
    assert ExtendedAt(before, meta, entries[..i], entries[i].0);
  }

  lemma {:induction false} EmplaceConcat(meta: TransferMeta, a: seq<Entry>, b: seq<Entry>)
    ensures EmplaceAll(meta, a + b) == EmplaceAll(EmplaceAll(meta, a), b)
    decreases |a|
  {
    if a == [] {
      assert a + b == b;
    } else {
      assert (a + b)[0] == a[0] && (a + b)[1..] == a[1..] + b;
      EmplaceConcat(Emplace(meta, a[0].0, a[0].1), a[1..], b);
    }
  }

  /** Every key has a replica, and the shapes of a key's replicas agree with that of the last one. */
  ghost predicate Uniform(meta: TransferMeta) {
    forall key | key in meta ::
      meta[key] != [] && forall i | 0 <= i < |meta[key]| :: ShapeAgrees(meta[key][i].tensor, Last(meta[key]).tensor)
  }

  lemma EmplaceKeepsUniform(meta: TransferMeta, key: ShardedKey, replica: Replica)
    requires Uniform(meta)
    ensures Uniform(Emplace(meta, key, replica))
    ensures forall k | k != key :: Known(Emplace(meta, key, replica), k) == Known(meta, k)
    ensures Known(Emplace(meta, key, replica), key)
         == Known(meta, key) + (if Mismatch(meta, key, replica) then [] else [replica])
  {
    var after: TransferMeta := Emplace(meta, key, replica);
    forall k: ShardedKey | k in after
      ensures after[k] != [] && forall i | 0 <= i < |after[k]| :: ShapeAgrees(after[k][i].tensor, Last(after[k]).tensor)
    {
      if k == key && key in meta {
        assert forall i | 0 <= i < |meta[k]| :: ShapeAgrees(meta[k][i].tensor, Last(meta[k]).tensor);
      }
    }
  }

  // ---------- looking up ----------

  /** The roll-over of WaitForTensorReady once metadata has been published. */
  function RollOver(s: CacheState, seqId: int): CacheState {
    if seqId in s.cache || s.lastCompletedSeqId !in s.cache then s
    else s.(cache := s.cache[seqId := s.cache[s.lastCompletedSeqId]] - {s.lastCompletedSeqId})
  }

  /** The lookup finds an entry; otherwise the code throws. */
  predicate Found(s: CacheState, seqId: int) {
    seqId in s.cache || s.lastCompletedSeqId in s.cache
  }

  function MetaOf(s: CacheState, seqId: int): TransferMeta {
    if seqId in s.cache then s.cache[seqId] else map[]
  }

  /** The metadata of a message is added to that of its round. */
  function Arrive(s: CacheState, seqId: int, entries: seq<Entry>): CacheState {
    var meta := MetaOf(s, seqId);
    s.(cache := s.cache[seqId := EmplaceAll(meta, Fitting(meta, entries))])
  }

  /** What the search for metadata does to the cache; before the first Complete it only waits. */
  function Looked(s: CacheState, seqId: int): CacheState {
    if s.isPublishMeta then RollOver(s, seqId) else s
  }

  function Completed(s: CacheState, seqId: int): CacheState {
    s.(lastCompletedSeqId := seqId, isPublishMeta := true)
  }

  /** One fitting entry is added, then the rest. */
  lemma FitsOne(meta: TransferMeta, entries: seq<Entry>)
    requires entries != [] && !Mismatch(meta, entries[0].0, entries[0].1)
    ensures var after := Emplace(meta, entries[0].0, entries[0].1);
            && Fitting(meta, entries) == [entries[0]] + Fitting(after, entries[1..])
            && EmplaceAll(meta, Fitting(meta, entries)) == EmplaceAll(after, Fitting(after, entries[1..]))
  {
    var rest := Fitting(Emplace(meta, entries[0].0, entries[0].1), entries[1..]);
    assert ([entries[0]] + rest)[1..] == rest;
  }

  /** Of `all`, `done` was added, which gave `meta`; `rest` is still to be looked at. */
  ghost predicate Adding(before: TransferMeta, all: seq<Entry>, done: seq<Entry>, rest: seq<Entry>, meta: TransferMeta) {
    && Fitting(before, all) == done + Fitting(meta, rest)
    && EmplaceAll(before, Fitting(before, all)) == EmplaceAll(meta, Fitting(meta, rest))
  }

  lemma AddingNext(before: TransferMeta, all: seq<Entry>, done: seq<Entry>, rest: seq<Entry>, meta: TransferMeta)
    requires Adding(before, all, done, rest, meta) && rest != [] && !Mismatch(meta, rest[0].0, rest[0].1)
    ensures Adding(before, all, done + [rest[0]], rest[1..], Emplace(meta, rest[0].0, rest[0].1))
  {
    FitsOne(meta, rest);
    var more := Fitting(Emplace(meta, rest[0].0, rest[0].1), rest[1..]);
    assert done + ([rest[0]] + more) == done + [rest[0]] + more;
  }

  lemma AddingStops(before: TransferMeta, all: seq<Entry>, done: seq<Entry>, rest: seq<Entry>, meta: TransferMeta)
    requires Adding(before, all, done, rest, meta) && (rest == [] || Mismatch(meta, rest[0].0, rest[0].1))
    ensures meta == EmplaceAll(before, Fitting(before, all)) && Fitting(before, all) == done
  {
    assert Fitting(meta, rest) == [] && done + [] == done;
  }

  /** The first i entries of the message have been added, which gave `meta`. */
  ghost predicate AddedSoFar(before: TransferMeta, entries: seq<Entry>, i: int, meta: TransferMeta) {
    && 0 <= i <= |entries| && Uniform(before) && Uniform(meta)
    && Adding(before, entries, entries[..i], entries[i..], meta)
    && Extended(before, meta, entries[..i]) && forall j | 0 <= j < i :: !Differs(before, entries, j)
  }

  lemma NothingAdded(before: TransferMeta, entries: seq<Entry>)
    requires Uniform(before)
    ensures AddedSoFar(before, entries, 0, before)
  {
    assert entries[..0] == [] && entries[0..] == entries;
    assert [] + Fitting(before, entries) == Fitting(before, entries);
  }

  lemma AddedNext(before: TransferMeta, entries: seq<Entry>, i: nat, meta: TransferMeta)
    requires AddedSoFar(before, entries, i, meta) && i < |entries| && !Mismatch(meta, entries[i].0, entries[i].1)
    ensures AddedSoFar(before, entries, i + 1, Emplace(meta, entries[i].0, entries[i].1))
  {
    MismatchDiffers(before, meta, entries, i);
    EmplaceKeepsUniform(meta, entries[i].0, entries[i].1);
    ExtendedOne(before, meta, entries, i);
    AddingOne(before, meta, entries, i);
  }

  lemma ExtendedOne(before: TransferMeta, meta: TransferMeta, entries: seq<Entry>, i: nat)
    requires i < |entries| && Extended(before, meta, entries[..i]) && NoEmptyList(meta)
    requires !Mismatch(meta, entries[i].0, entries[i].1)
    ensures Extended(before, Emplace(meta, entries[i].0, entries[i].1), entries[..i + 1])
  {
    ExtendedNext(before, meta, entries[..i], entries[i]);
    assert entries[..i + 1] == entries[..i] + [entries[i]];
  }

  lemma AddingOne(before: TransferMeta, meta: TransferMeta, entries: seq<Entry>, i: nat)
    requires i < |entries| && Adding(before, entries, entries[..i], entries[i..], meta)
    requires !Mismatch(meta, entries[i].0, entries[i].1)
    ensures Adding(before, entries, entries[..i + 1], entries[i + 1..], Emplace(meta, entries[i].0, entries[i].1))
  {
    assert entries[i..][0] == entries[i] && entries[i..][1..] == entries[i + 1..];
    AddingNext(before, entries, entries[..i], entries[i..], meta);
    assert entries[..i + 1] == entries[..i] + [entries[i]];
  }

  lemma AddedAll(before: TransferMeta, entries: seq<Entry>, i: nat, meta: TransferMeta)
    requires AddedSoFar(before, entries, i, meta)
    requires i < |entries| ==> Mismatch(meta, entries[i].0, entries[i].1)
    ensures meta == EmplaceAll(before, Fitting(before, entries)) && AddsFirst(before, meta, entries, i)
  {
    if i < |entries| {
      assert entries[i..][0] == entries[i];
      MismatchDiffers(before, meta, entries, i);
    }
    AddingStops(before, entries, entries[..i], entries[i..], meta);
  }

  /** The loop over the entries of a message. */
  method AddEntries(before: TransferMeta, entries: seq<Entry>) returns (meta: TransferMeta, ok: bool)
    requires Uniform(before)
    ensures Uniform(meta) && meta == EmplaceAll(before, Fitting(before, entries))
    ensures exists n :: AddsFirst(before, meta, entries, n) && (ok <==> n == |entries|)
  {
    meta := before;
    NothingAdded(before, entries);
    for i := 0 to |entries|
      invariant AddedSoFar(before, entries, i, meta)
    {
      var key, replica := entries[i].0, entries[i].1;
      if key in meta && !ShapeAgrees(Last(meta[key]).tensor, replica.tensor) {
        AddedAll(before, entries, i, meta);
        return meta, false;
      }
      AddedNext(before, entries, i, meta);
      meta := Emplace(meta, key, replica);
    }
    AddedAll(before, entries, |entries|, meta);
    return meta, true;
  }

  class RemoteCache {
    var remoteTensorCache: map<int, TransferMeta>
    var isPublishMeta: bool
    var lastCompletedSeqId: int

    function State(): CacheState
      reads this
    {
      CacheState(remoteTensorCache, isPublishMeta, lastCompletedSeqId)
    }

    /** HandleTensorRDMAMeta for one message: its entries are added to the round's metadata, up to the
        first one that does not fit. */
    method HandleTensorRDMAMeta(seqId: int, entries: seq<Entry>) returns (ok: bool)
      requires forall q | q in remoteTensorCache :: Uniform(remoteTensorCache[q])
      modifies this
      ensures forall q | q in remoteTensorCache :: Uniform(remoteTensorCache[q])
      ensures State() == Arrive(old(State()), seqId, entries)
      ensures seqId in remoteTensorCache && exists n ::
        AddsFirst(MetaOf(old(State()), seqId), remoteTensorCache[seqId], entries, n) && (ok <==> n == |entries|)
    {
      var meta := if seqId in remoteTensorCache then remoteTensorCache[seqId] else map[];
      meta, ok := AddEntries(meta, entries);
      remoteTensorCache := remoteTensorCache[seqId := meta];
    }

    /** Get's search for the metadata of a round: roll over when needed, then look up. */
    method Lookup(seqId: int) returns (found: bool, meta: TransferMeta)
      modifies this
      ensures State() == Looked(old(State()), seqId)
      ensures old(isPublishMeta) ==> (found <==> Found(old(State()), seqId))
      ensures !old(isPublishMeta) ==> (found <==> seqId in old(remoteTensorCache))
      ensures found ==> seqId in remoteTensorCache && meta == remoteTensorCache[seqId]
    {
      meta := map[];
      if isPublishMeta && seqId !in remoteTensorCache {
        if lastCompletedSeqId !in remoteTensorCache {
          return false, meta;
        }
        remoteTensorCache := remoteTensorCache[seqId := remoteTensorCache[lastCompletedSeqId]];
        remoteTensorCache := remoteTensorCache - {lastCompletedSeqId};
      }
      found := seqId in remoteTensorCache;
      if found {
        meta := remoteTensorCache[seqId];
      }
    }

    /** What Complete does to these fields; AfterRounds says what that means. */
    method Complete(seqId: int)
      modifies this
      ensures State() == Completed(old(State()), seqId)
    {
      lastCompletedSeqId := seqId;
      isPublishMeta := true;
    }
  }

  // ---------- round one ----------

  const START: CacheState := CacheState(map[], false, -1)

  /** What happens to the cache before the first Complete: messages arrive, Gets search and wait. */
  datatype Event = Arrives(entries: seq<Entry>) | Searches

  function Happened(first: int, events: seq<Event>): CacheState {
    if events == [] then START else
      var s, last := Happened(first, events[..|events| - 1]), events[|events| - 1];
      match last
      case Arrives(entries) => Arrive(s, first, entries)
      case Searches => Looked(s, first)
  }

  predicate AnyArrived(events: seq<Event>) {
    exists i | 0 <= i < |events| :: events[i].Arrives?
  }

  /** All entries that were added, in the order of arrival: of every message the first ones, as long as
      they agree with all that came before under their key. */
  function Added(events: seq<Event>): seq<Entry> {
    if events == [] then [] else
      var before, last := Added(events[..|events| - 1]), events[|events| - 1];
      if last.Searches? then before else before + last.entries[..Agreed(before, last.entries)]
  }

  /** All entries that were sent. */
  function Sent(events: seq<Event>): seq<Entry> {
    if events == [] then [] else
      var before, last := Sent(events[..|events| - 1]), events[|events| - 1];
      if last.Searches? then before else before + last.entries
  }

  lemma ArrivedLast(events: seq<Event>)
    requires events != []
    ensures AnyArrived(events) <==> AnyArrived(events[..|events| - 1]) || events[|events| - 1].Arrives?
  {
    var front := events[..|events| - 1];
    if i :| 0 <= i < |events| && events[i].Arrives? && i < |front| {
      assert front[i].Arrives?;
    }
    if i :| 0 <= i < |front| && front[i].Arrives? {
      assert events[i].Arrives?;
    }
  }

  // ---------- when nothing is dropped ----------

  /** The entry agrees in shape with all of these under its key. */
  predicate AgreesWithAll(entries: seq<Entry>, e: Entry) {
    forall i | 0 <= i < |entries| && entries[i].0 == e.0 :: ShapeAgrees(entries[i].1.tensor, e.1.tensor)
  }

  /** Entries under one key agree in shape, each with every later one. */
  predicate Agreeing(entries: seq<Entry>) {
    forall j | 0 <= j < |entries| :: AgreesWithAll(entries[..j], entries[j])
  }

  /** The metadata knows the keys of these entries, and of each key a last entry with which all agree. */
  ghost predicate Tracks(meta: TransferMeta, entries: seq<Entry>) {
    && (forall i | 0 <= i < |entries| :: entries[i].0 in meta)
    && (forall key | key in meta ::
          meta[key] != [] && (key, Last(meta[key])) in entries && AgreesWithAll(entries, (key, Last(meta[key]))))
  }

  lemma MismatchExactly(meta: TransferMeta, entries: seq<Entry>, e: Entry)
    requires Tracks(meta, entries)
    ensures Mismatch(meta, e.0, e.1) <==> !AgreesWithAll(entries, e)
  {
    if e.0 in meta {
      assert (e.0, Last(meta[e.0])) in entries && AgreesWithAll(entries, (e.0, Last(meta[e.0])));
    }
  }

  lemma TracksNext(meta: TransferMeta, entries: seq<Entry>, e: Entry)
    requires Tracks(meta, entries) && AgreesWithAll(entries, e)
    ensures Tracks(Emplace(meta, e.0, e.1), entries + [e])
  {
    MismatchExactly(meta, entries, e);
    var after, more := Emplace(meta, e.0, e.1), entries + [e];
    forall key | key in after
      ensures after[key] != [] && (key, Last(after[key])) in more && AgreesWithAll(more, (key, Last(after[key])))
    {
      if key == e.0 {
        assert Last(after[key]) == e.1 && more[|entries|] == e;
      } else {
        assert (key, Last(meta[key])) in entries && AgreesWithAll(entries, (key, Last(meta[key])));
      }
    }
  }

  lemma AgreeingNext(entries: seq<Entry>, e: Entry)
    ensures Agreeing(entries + [e]) <==> Agreeing(entries) && AgreesWithAll(entries, e)
  {
    var more := entries + [e];
    assert more[..|entries|] == entries && more[|entries|] == e;
    forall j | 0 <= j < |entries|
      ensures more[..j] == entries[..j] && more[j] == entries[j]
    {
    }
  }

  /** How many entries agree with everything in front of them under their key, up to the first that
      does not. */
  function Agreed(before: seq<Entry>, entries: seq<Entry>): (n: nat)
    ensures n <= |entries|
    decreases |entries|
  {
    if entries == [] || !AgreesWithAll(before, entries[0]) then 0 else 1 + Agreed(before + [entries[0]], entries[1..])
  }

  /** They are the longest beginning of the message that agrees. */
  lemma {:induction false} AgreedIsLongest(before: seq<Entry>, entries: seq<Entry>)
    requires Agreeing(before)
    ensures Agreeing(before + entries[..Agreed(before, entries)])
    ensures Agreed(before, entries) < |entries| ==> !Agreeing(before + entries[..Agreed(before, entries) + 1])
    decreases |entries|
  {
    var n := Agreed(before, entries);
    if entries == [] {
      assert before + entries[..n] == before;
    } else {
      var e, rest := entries[0], entries[1..];
      AgreeingNext(before, e);
      if AgreesWithAll(before, e) {
        AgreedIsLongest(before + [e], rest);
        assert before + entries[..n] == before + [e] + rest[..n - 1];
        if n < |entries| {
          assert before + entries[..n + 1] == before + [e] + rest[..n];
        }
      } else {
        assert before + entries[..0] == before && before + entries[..1] == before + [e];
      }
    }
  }

  lemma {:induction false} FittingIsAgreed(meta: TransferMeta, before: seq<Entry>, entries: seq<Entry>)
    requires Tracks(meta, before)
    ensures Fitting(meta, entries) == entries[..Agreed(before, entries)]
    decreases |entries|
  {
    if entries != [] {
      var e, rest := entries[0], entries[1..];
      MismatchExactly(meta, before, e);
      if AgreesWithAll(before, e) {
        TracksNext(meta, before, e);
        FittingIsAgreed(Emplace(meta, e.0, e.1), before + [e], rest);
        assert entries[..Agreed(before, entries)] == [e] + rest[..Agreed(before + [e], rest)];
      }
    }
  }

  /** All entries of a message are added exactly when they agree with what came before and each other. */
  lemma {:induction false} AllFit(meta: TransferMeta, entries: seq<Entry>, more: seq<Entry>)
    requires Tracks(meta, entries) && Agreeing(entries)
    ensures Fitting(meta, more) == more <==> Agreeing(entries + more)
    ensures Fitting(meta, more) == more ==> Tracks(EmplaceAll(meta, more), entries + more)
    decreases |more|
  {
    if more == [] {
      assert entries + more == entries;
    } else {
      var e, rest := more[0], more[1..];
      assert entries + more == entries + [e] + rest;
      MismatchExactly(meta, entries, e);
      AgreeingNext(entries, e);
      if AgreesWithAll(entries, e) {
        TracksNext(meta, entries, e);
        AllFit(Emplace(meta, e.0, e.1), entries + [e], rest);
        assert more == [e] + rest;
      } else {
        PrefixAgrees(entries + [e], rest);
      }
    }
  }

  lemma PrefixAgrees(a: seq<Entry>, b: seq<Entry>)
    ensures Agreeing(a + b) ==> Agreeing(a)
  {
    forall j | 0 <= j < |a|
      ensures (a + b)[..j] == a[..j] && (a + b)[j] == a[j]
    {
    }
  }

  lemma {:induction false} AddedIsShorter(events: seq<Event>)
    ensures |Added(events)| <= |Sent(events)|
  {
    if events != [] {
      AddedIsShorter(events[..|events| - 1]);
    }
  }

  /** One more message, after `sent` of which `added` was added. */
  lemma OneMessage(sent: seq<Entry>, added: seq<Entry>, entries: seq<Entry>)
    requires |added| <= |sent| && Agreeing(added) && (added == sent <==> Agreeing(sent))
    ensures added + entries[..Agreed(added, entries)] == sent + entries <==> Agreeing(sent + entries)
  {
    PrefixAgrees(sent, entries);
    var n := Agreed(added, entries);
    if Agreeing(sent) {
      AgreedIsLongest(sent, entries);
      assert n == |entries| ==> entries[..n] == entries;
      if n < |entries| {
        assert |sent + entries[..n]| < |sent + entries|;
        assert sent + entries == sent + entries[..n + 1] + entries[n + 1..];
        PrefixAgrees(sent + entries[..n + 1], entries[n + 1..]);
      }
    } else {
      assert (added + entries[..n])[..|added|] == added && (sent + entries)[..|sent|] == sent;
    }
  }

  /** Nothing that was sent is missing if and only if the entries sent under one key agree in shape. */
  lemma {:induction false} NothingDropped(events: seq<Event>)
    ensures Added(events) == Sent(events) <==> Agreeing(Sent(events))
  {
    if events != [] {
      var front, last := events[..|events| - 1], events[|events| - 1];
      NothingDropped(front);
      if last.Arrives? {
        AddedIsShorter(front);
        RoundOne(0, front);
        OneMessage(Sent(front), Added(front), last.entries);
      }
    }
  }

  // ---------- what the cache holds in round one ----------

  /** The entries as metadata: under every key the replicas sent for it, in order. */
  function Grouped(entries: seq<Entry>): TransferMeta {
    map key | key in KeysOf(entries) :: Under(entries, key)
  }

  lemma {:induction false} AddAll(before: TransferMeta, meta: TransferMeta, done: seq<Entry>, entries: seq<Entry>)
    requires NoEmptyList(meta) && Extended(before, meta, done) && Fitting(meta, entries) == entries
    ensures Extended(before, EmplaceAll(meta, entries), done + entries)
    decreases |entries|
  {
    if entries == [] {
      assert done + entries == done;
    } else {
      var e, rest := entries[0], entries[1..];
      ExtendedNext(before, meta, done, e);
      assert Fitting(meta, entries)[1..] == Fitting(Emplace(meta, e.0, e.1), rest);
      AddAll(before, Emplace(meta, e.0, e.1), done + [e], rest);
      assert done + [e] + rest == done + entries;
    }
  }

  lemma FromNothing(entries: seq<Entry>)
    requires Agreeing(entries)
    ensures Fitting(map[], entries) == entries && Tracks(EmplaceAll(map[], entries), entries)
  {
    assert [] + entries == entries;
    AllFit(map[], [], entries);
  }

  lemma NothingExtended()
    ensures Extended(map[], map[], []) && NoEmptyList(map[])
  {
  }

  /** What was added agrees, so it stands in the metadata under its keys, in order, each once. */
  lemma AddedIsGrouped(entries: seq<Entry>)
    requires Agreeing(entries)
    ensures EmplaceAll(map[], entries) == Grouped(entries)
  {
    FromNothing(entries);
    NothingExtended();
    AddAll(map[], map[], [], entries);
    assert [] + entries == entries;
    SameLists(EmplaceAll(map[], entries), entries);
  }

  lemma SameLists(meta: TransferMeta, entries: seq<Entry>)
    requires Extended(map[], meta, entries)
    ensures meta == Grouped(entries)
  {
    forall key
      ensures key in meta <==> key in Grouped(entries)
      ensures key in meta ==> meta[key] == Under(entries, key)
    {
      assert ExtendedAt(map[], meta, entries, key);
      assert Known(map[], key) + Under(entries, key) == Under(entries, key);
    }
  }

  /** Before the first Complete the cache holds one entry: everything added so far. */
  lemma {:induction false} RoundOne(first: int, events: seq<Event>)
    ensures Happened(first, events)
         == CacheState(if AnyArrived(events) then map[first := Grouped(Added(events))] else map[], false, -1)
    ensures !AnyArrived(events) ==> Added(events) == []
    ensures Agreeing(Added(events))
  {
    if events != [] {
      var front, last := events[..|events| - 1], events[|events| - 1];
      RoundOne(first, front);
      ArrivedLast(events);
      if last.Arrives? {
        OneArrival(Added(front), last.entries);
        ArrivedState(first, front, last.entries);
      }
    }
  }

  lemma ArrivedState(first: int, front: seq<Event>, entries: seq<Entry>)
    requires Happened(first, front)
          == CacheState(if AnyArrived(front) then map[first := Grouped(Added(front))] else map[], false, -1)
    requires !AnyArrived(front) ==> Added(front) == []
    ensures MetaOf(Happened(first, front), first) == Grouped(Added(front))
    ensures Arrive(Happened(first, front), first, entries).cache
         == map[first := EmplaceAll(Grouped(Added(front)), Fitting(Grouped(Added(front)), entries))]
  {
    assert Grouped([]) == map[];
  }

  /** A message that arrives after `before` was added. */
  lemma OneArrival(before: seq<Entry>, entries: seq<Entry>)
    requires Agreeing(before)
    ensures var more := entries[..Agreed(before, entries)];
            && Agreeing(before + more) && EmplaceAll(map[], before) == Grouped(before)
            && EmplaceAll(Grouped(before), Fitting(Grouped(before), entries)) == Grouped(before + more)
  {
    AddedIsGrouped(before);
    FromNothing(before);
    FittingIsAgreed(Grouped(before), before, entries);
    AgreedIsLongest(before, entries);
    var more := entries[..Agreed(before, entries)];
    AddedIsGrouped(before + more);
    EmplaceConcat(map[], before, more);
  }

  /** Round one is over. */
  function RoundOneOver(first: int, events: seq<Event>): CacheState {
    Completed(Happened(first, events), first)
  }

  /** What round one published. */
  function PublishedMeta(events: seq<Event>): TransferMeta {
    Grouped(Added(events))
  }

  // ---------- later rounds ----------

  /** A round after the first: its sequence id, and how many Gets it makes. Rounds without a Get
      read through RawGet only, which never touches the cache. */
  datatype Round = Round(seqId: int, gets: nat)

  function Lookups(s: CacheState, seqId: int, gets: nat): CacheState {
    if gets == 0 then s else Looked(Lookups(s, seqId, gets - 1), seqId)
  }

  /** The state after the given rounds. */
  function After(s: CacheState, rounds: seq<Round>): CacheState {
    if rounds == [] then s else
      var last := rounds[|rounds| - 1];
      Completed(Lookups(After(s, rounds[..|rounds| - 1]), last.seqId, last.gets), last.seqId)
  }

  function Holding(first: int, meta: TransferMeta): CacheState {
    CacheState(map[first := meta], true, first)
  }

  /** Sequence ids are not used twice. */
  predicate Distinct(first: int, rounds: seq<Round>) {
    && (forall i | 0 <= i < |rounds| :: rounds[i].seqId != first)
    && (forall i, j | 0 <= i < j < |rounds| :: rounds[i].seqId != rounds[j].seqId)
  }

  function LastSeqId(first: int, rounds: seq<Round>): int {
    if rounds == [] then first else rounds[|rounds| - 1].seqId
  }

  predicate AllGet(rounds: seq<Round>) {
    forall i | 0 <= i < |rounds| :: rounds[i].gets > 0
  }

  lemma {:induction false} LookupsOnce(s: CacheState, seqId: int, gets: nat)
    requires gets > 0
    ensures Lookups(s, seqId, gets) == Looked(s, seqId)
  {
    if gets > 1 {
      LookupsOnce(s, seqId, gets - 1);
    } else {
      assert Lookups(s, seqId, 0) == s;
    }
  }

  lemma {:induction false} AfterRounds(first: int, meta: TransferMeta, rounds: seq<Round>)
    requires Distinct(first, rounds)
    ensures After(Holding(first, meta), rounds).isPublishMeta
    ensures After(Holding(first, meta), rounds).lastCompletedSeqId == LastSeqId(first, rounds)
    ensures AllGet(rounds) ==> After(Holding(first, meta), rounds).cache == map[LastSeqId(first, rounds) := meta]
    ensures !AllGet(rounds) ==>
      exists q :: q != LastSeqId(first, rounds) && After(Holding(first, meta), rounds).cache == map[q := meta]
                  && (q == first || exists i | 0 <= i < |rounds| - 1 :: rounds[i].seqId == q)
  {
    if rounds != [] {
      var front, last := rounds[..|rounds| - 1], rounds[|rounds| - 1];
      assert forall i | 0 <= i < |front| :: front[i] == rounds[i];
      AfterRounds(first, meta, front);
      var s := After(Holding(first, meta), front);
      var k := LastSeqId(first, front);
      assert k == first || k == rounds[|front| - 1].seqId;
      if last.gets > 0 {
        LookupsOnce(s, last.seqId, last.gets);
      }
      if AllGet(front) {
        if last.gets > 0 {
          assert RollOver(s, last.seqId).cache == map[last.seqId := meta];
        } else {
          assert !AllGet(rounds);
          assert s.cache == map[k := meta];
        }
      } else {
        var q :| q != k && s.cache == map[q := meta]
                 && (q == first || exists i | 0 <= i < |front| - 1 :: front[i].seqId == q);
        assert q != last.seqId;
        assert !AllGet(rounds);
      }
    }
  }

  lemma {:induction false} NothingToFind(first: int, rounds: seq<Round>)
    ensures After(CacheState(map[], true, first), rounds).cache == map[]
  {
    if rounds != [] {
      var front, last := rounds[..|rounds| - 1], rounds[|rounds| - 1];
      NothingToFind(first, front);
      if last.gets > 0 {
        LookupsOnce(After(CacheState(map[], true, first), front), last.seqId, last.gets);
      }
    }
  }

  /** If metadata arrived in round one and every later round makes a Get, the cache always holds one
      entry, keyed by the last completed round, with the contents published in round one. */
  lemma CacheHoldsOneEntry(first: int, events: seq<Event>, rounds: seq<Round>)
    requires AnyArrived(events) && Distinct(first, rounds) && AllGet(rounds)
    ensures After(RoundOneOver(first, events), rounds).cache == map[LastSeqId(first, rounds) := PublishedMeta(events)]
  {
    RoundOne(first, events);
    AfterRounds(first, PublishedMeta(events), rounds);
  }

  /** Exactly when Get finds its metadata: a Get in a new round succeeds if and only if metadata arrived
      in round one and every earlier round after it made a Get; one round without (RawGet only) breaks
      all later ones. */
  lemma GetFindsMetadata(first: int, events: seq<Event>, rounds: seq<Round>, seqId: int)
    requires Distinct(first, rounds + [Round(seqId, 1)])
    ensures Found(After(RoundOneOver(first, events), rounds), seqId) <==> AnyArrived(events) && AllGet(rounds)
    ensures AnyArrived(events) && AllGet(rounds) ==>
      Looked(After(RoundOneOver(first, events), rounds), seqId).cache == map[seqId := PublishedMeta(events)]
  {
    RoundOne(first, events);
    if AnyArrived(events) {
      FindsHeld(first, PublishedMeta(events), rounds, seqId);
    } else {
      NothingToFind(first, rounds);
    }
  }

  lemma FindsHeld(first: int, meta: TransferMeta, rounds: seq<Round>, seqId: int)
    requires Distinct(first, rounds + [Round(seqId, 1)])
    ensures Found(After(Holding(first, meta), rounds), seqId) <==> AllGet(rounds)
    ensures After(Holding(first, meta), rounds).isPublishMeta
    ensures AllGet(rounds) ==> RollOver(After(Holding(first, meta), rounds), seqId).cache == map[seqId := meta]
  {
    var all := rounds + [Round(seqId, 1)];
    assert all[|rounds|].seqId == seqId;
    assert forall i | 0 <= i < |rounds| :: all[i] == rounds[i];
    AfterRounds(first, meta, rounds);
    var s := After(Holding(first, meta), rounds);
    assert rounds != [] ==> LastSeqId(first, rounds) == all[|rounds| - 1].seqId;
    if !AllGet(rounds) {
      var q :| q != LastSeqId(first, rounds) && s.cache == map[q := meta]
               && (q == first || exists i | 0 <= i < |rounds| - 1 :: rounds[i].seqId == q);
      assert q != seqId;
    }
  }
}
