/** The protocol state of one process (TensorTransferPull): which round it works on and whom it has
    heard from. The functions say what each operation does to that state; the class performs them. */
module PullNode {
  import opened FiniteSets
  import opened NodeEntries

  const INIT_SEQ_ID: int := -1

  datatype PullState = PullState(
    currentSeqId: int, lastCompletedSeqId: int, readOp: bool, writeOp: bool,
    readyNodes: set<NodeInfo>, consumedNodes: set<NodeInfo>, isPublishMeta: bool)

  const FRESH: PullState := PullState(INIT_SEQ_ID, INIT_SEQ_ID, false, false, {}, {}, false)

  /** CheckAndUpdateCurrentSeqId: a round may start only when none is running. */
  function UpdateSeqId(s: PullState, seqId: int): PullState {
    if s.currentSeqId == INIT_SEQ_ID then s.(currentSeqId := seqId) else s
  }

  predicate SeqIdAccepted(s: PullState, seqId: int) {
    s.currentSeqId == INIT_SEQ_ID || s.currentSeqId == seqId
  }

  function OnWeightReady(s: PullState, from: NodeInfo): PullState {
    s.(readyNodes := s.readyNodes + {from})
  }

  /** HandleWeightConsumed ignores messages of a round before the current one. */
  function OnWeightConsumed(s: PullState, seqId: int, from: NodeInfo): PullState {
    if seqId < s.currentSeqId then s else s.(consumedNodes := s.consumedNodes + {from})
  }

  // The tail of Complete, in the order of its assignments.

  function ResetSeqId(s: PullState): PullState {
    s.(readOp := false, writeOp := false, lastCompletedSeqId := s.currentSeqId, currentSeqId := INIT_SEQ_ID)
  }

  function ClearReady(s: PullState): PullState {
    s.(readyNodes := {})
  }

  function ClearConsumed(s: PullState): PullState {
    s.(consumedNodes := {}, isPublishMeta := true)
  }

  // ---------- what the state means ----------

  /** What happens to a process: its own calls, and control messages that arrive. */
  datatype Call = Puts(seqId: int) | Gets(seqId: int) | Ready(from: NodeInfo) | Consumed(seqId: int, from: NodeInfo) | Completes

  function Do(s: PullState, call: Call): PullState {
    match call
    case Puts(seqId) => UpdateSeqId(s, seqId).(writeOp := true)
    case Gets(seqId) => UpdateSeqId(s, seqId).(readOp := true)
    case Ready(from) => OnWeightReady(s, from)
    case Consumed(seqId, from) => OnWeightConsumed(s, seqId, from)
    case Completes => ClearConsumed(ClearReady(ResetSeqId(s)))
  }

  function DoAll(s: PullState, calls: seq<Call>): PullState {
    if calls == [] then s else Do(DoAll(s, calls[..|calls| - 1]), calls[|calls| - 1])
  }

  /** The calls since the last Complete. */
  function Since(calls: seq<Call>): (since: seq<Call>)
    ensures |since| <= |calls|
  {
    if calls == [] || calls[|calls| - 1].Completes? then [] else Since(calls[..|calls| - 1]) + [calls[|calls| - 1]]
  }

  predicate Begins(call: Call) { call.Puts? || call.Gets? }

  /** The round that calls belong to: the sequence id of the first put or read. */
  function RoundOf(calls: seq<Call>): int {
    if calls == [] then INIT_SEQ_ID else
      var before, last := RoundOf(calls[..|calls| - 1]), calls[|calls| - 1];
      if before == INIT_SEQ_ID && Begins(last) then last.seqId else before
  }

  /** A WeightConsumed that was not older than the round at its arrival. */
  predicate Timely(calls: seq<Call>, i: int) {
    0 <= i < |calls| && calls[i].Consumed? && calls[i].seqId >= RoundOf(calls[..i])
  }

  function ReadySenders(calls: seq<Call>): set<NodeInfo> {
    set i | 0 <= i < |calls| && calls[i].Ready? :: calls[i].from
  }

  function TimelySenders(calls: seq<Call>): set<NodeInfo> {
    set i | 0 <= i < |calls| && Timely(calls, i) :: calls[i].from
  }

  lemma OneMoreCall(calls: seq<Call>, call: Call)
    ensures ReadySenders(calls + [call]) == ReadySenders(calls) + (if call.Ready? then {call.from} else {})
    ensures TimelySenders(calls + [call])
         == TimelySenders(calls) + (if call.Consumed? && call.seqId >= RoundOf(calls) then {call.from} else {})
  {
    var more := calls + [call];
    assert more[..|calls|] == calls && more[|calls|] == call;
    assert forall i | 0 <= i < |calls| :: more[i] == calls[i] && more[..i] == calls[..i];
    forall n | n in ReadySenders(calls)
      ensures n in ReadySenders(more)
    {
      var i :| 0 <= i < |calls| && calls[i].Ready? && calls[i].from == n;
      assert more[i] == calls[i];
    }
    forall n | n in TimelySenders(calls)
      ensures n in TimelySenders(more)
    {
      var i :| 0 <= i < |calls| && Timely(calls, i) && calls[i].from == n;
      assert Timely(more, i);
    }
  }

  /** The current id is the round of the calls; the ready nodes are those a WeightReady came from,
      whatever its round; the consumed nodes are those a timely WeightConsumed came from. */
  predicate Reflects(s: PullState, since: seq<Call>) {
    && s.currentSeqId == RoundOf(since)
    && s.readyNodes == ReadySenders(since) && s.consumedNodes == TimelySenders(since)
  }

  lemma DoReflects(s: PullState, since: seq<Call>, call: Call)
    requires Reflects(s, since) && !call.Completes?
    ensures Reflects(Do(s, call), since + [call])
  {
    OneMoreCall(since, call);
    assert (since + [call])[..|since|] == since;
    assert RoundOf(since + [call]) == if RoundOf(since) == INIT_SEQ_ID && Begins(call) then call.seqId else RoundOf(since);
  }

  lemma NothingYet(s: PullState)
    requires s.currentSeqId == INIT_SEQ_ID && s.readyNodes == {} && s.consumedNodes == {}
    ensures Reflects(s, [])
  {
  }

  /** At any time the fields reflect what happened since the last Complete. */
  lemma {:induction false} StateMeans(calls: seq<Call>)
    ensures Reflects(DoAll(FRESH, calls), Since(calls))
  {
    if calls == [] {
      NothingYet(FRESH);
    } else {
      var front, last := calls[..|calls| - 1], calls[|calls| - 1];
      if last.Completes? {
        NothingYet(DoAll(FRESH, calls));
      } else {
        StateMeans(front);
        DoReflects(DoAll(FRESH, front), Since(front), last);
      }
    }
  }

  /** The round counts as writing once something was put, and as reading once something was read. */
  lemma {:induction false} FlagsMean(calls: seq<Call>)
    ensures DoAll(FRESH, calls).writeOp <==> exists c | c in Since(calls) :: c.Puts?
    ensures DoAll(FRESH, calls).readOp <==> exists c | c in Since(calls) :: c.Gets?
  {
    if calls != [] {
      var front, last := calls[..|calls| - 1], calls[|calls| - 1];
      FlagsMean(front);
      if !last.Completes? {
        assert forall c :: c in Since(calls) <==> c in Since(front) || c == last;
      }
    }
  }

  /** Call k is the last Complete. */
  predicate LastComplete(calls: seq<Call>, k: int) {
    0 <= k < |calls| && calls[k].Completes? && forall j | k < j < |calls| :: !calls[j].Completes?
  }

  /** Metadata counts as published once a Complete is over, and the last completed round is the one that
      the last Complete ended. */
  lemma {:induction false} CompletedMeans(calls: seq<Call>)
    ensures DoAll(FRESH, calls).isPublishMeta <==> exists k :: LastComplete(calls, k)
    ensures !DoAll(FRESH, calls).isPublishMeta ==> DoAll(FRESH, calls).lastCompletedSeqId == INIT_SEQ_ID
    ensures forall k | LastComplete(calls, k) ::
      DoAll(FRESH, calls).lastCompletedSeqId == RoundOf(Since(calls[..k]))
  {
    if calls != [] {
      var front, last, n := calls[..|calls| - 1], calls[|calls| - 1], |calls| - 1;
      assert calls == front + [last];
      CompletedMeans(front);
      if last.Completes? {
        StateMeans(front);
        assert LastComplete(calls, n);
      } else {
        forall k
          ensures LastComplete(calls, k) <==> LastComplete(front, k)
          ensures LastComplete(calls, k) ==> calls[..k] == front[..k]
        {
          SameLastComplete(front, last, k);
        }
      }
    }
  }

  lemma SameLastComplete(calls: seq<Call>, call: Call, k: int)
    requires !call.Completes?
    ensures LastComplete(calls + [call], k) <==> LastComplete(calls, k)
    ensures LastComplete(calls, k) ==> (calls + [call])[..k] == calls[..k]
  {
    var more := calls + [call];
    assert more[|calls|] == call && forall j | 0 <= j < |calls| :: more[j] == calls[j];
  }

  /** A put or read is accepted exactly when nothing was put or read since the last Complete, or the first
      one carried the same id; a refused one changes neither the round nor whom was heard from. */
  lemma AcceptedExactly(calls: seq<Call>, call: Call)
    requires Begins(call)
    ensures SeqIdAccepted(DoAll(FRESH, calls), call.seqId) <==>
            RoundOf(Since(calls)) == INIT_SEQ_ID || RoundOf(Since(calls)) == call.seqId
    ensures !SeqIdAccepted(DoAll(FRESH, calls), call.seqId) ==>
            Reflects(DoAll(FRESH, calls + [call]), Since(calls)) && RoundOf(Since(calls + [call])) == RoundOf(Since(calls))
  {
    StateMeans(calls);
    var more := calls + [call];
    assert more[..|calls|] == calls && more[|calls|] == call;
    assert Since(more)[..|Since(calls)|] == Since(calls);
  }

  /** One round at a time: whatever happened, a put or read is accepted exactly when it opens the round
      or belongs to it, so all accepted ones since the last Complete carry the id of one round. */
  lemma {:induction false} OneRoundAtATime(calls: seq<Call>, i: nat)
    requires i < |Since(calls)| && Begins(Since(calls)[i])
    requires SeqIdAccepted(DoAll(FRESH, calls[..|calls| - |Since(calls)| + i]), Since(calls)[i].seqId)
    ensures Since(calls)[i].seqId == DoAll(FRESH, calls).currentSeqId || Since(calls)[i].seqId == INIT_SEQ_ID
  {
    var front, last, since := calls[..|calls| - 1], calls[|calls| - 1], Since(calls);
    assert since == Since(front) + [last];
    if i == |since| - 1 {
      assert calls[..|calls| - |since| + i] == front;
    } else {
      assert calls[..|calls| - |since| + i] == front[..|front| - |Since(front)| + i];
      OneRoundAtATime(front, i);
      StateMeans(front);
    }
  }

  // ---------- the code ----------

  class TensorTransferPull {
    const peerHosts: set<NodeInfo>
    var currentSeqId: int
    var lastCompletedSeqId: int
    var readOp: bool
    var writeOp: bool
    var readyNodes: set<NodeInfo>
    var consumedNodes: set<NodeInfo>
    var isPublishMeta: bool

    function State(): PullState
      reads this
    {
      PullState(currentSeqId, lastCompletedSeqId, readOp, writeOp, readyNodes, consumedNodes, isPublishMeta)
    }

    constructor (peers: set<NodeInfo>)
      ensures State() == FRESH && peerHosts == peers
    {
      peerHosts := peers;
      currentSeqId, lastCompletedSeqId, readOp, writeOp := INIT_SEQ_ID, INIT_SEQ_ID, false, false;
      readyNodes, consumedNodes, isPublishMeta := {}, {}, false;
    }

    method CheckAndUpdateCurrentSeqId(seqId: int) returns (ok: bool)
      modifies this
      ensures State() == UpdateSeqId(old(State()), seqId)
      ensures ok <==> SeqIdAccepted(old(State()), seqId)
      ensures ok ==> currentSeqId == seqId
    {
      if currentSeqId == INIT_SEQ_ID {
        currentSeqId := seqId;
      } else if seqId != currentSeqId {
        return false;
      }
      return true;
    }

    /** Put and MultiPut: mark the round as writing. */
    method BeginWrite(seqId: int) returns (ok: bool)
      modifies this
      ensures State() == Do(old(State()), Puts(seqId))
      ensures ok <==> SeqIdAccepted(old(State()), seqId)
    {
      writeOp := true;
      ok := CheckAndUpdateCurrentSeqId(seqId);
    }

    /** Get and RawGet: mark the round as reading. */
    method BeginRead(seqId: int) returns (ok: bool)
      modifies this
      ensures State() == Do(old(State()), Gets(seqId))
      ensures ok <==> SeqIdAccepted(old(State()), seqId)
    {
      readOp := true;
      ok := CheckAndUpdateCurrentSeqId(seqId);
    }

    method HandleWeightReady(from: NodeInfo)
      modifies this
      ensures State() == Do(old(State()), Ready(from))
    {
      readyNodes := readyNodes + {from};
    }

    method HandleWeightConsumed(seqId: int, from: NodeInfo) returns (ok: bool)
      modifies this
      ensures State() == Do(old(State()), Consumed(seqId, from))
      ensures ok <==> seqId >= old(currentSeqId)
    {
      if seqId < currentSeqId {
        return false;
      }
      consumedNodes := consumedNodes + {from};
      return true;
    }

    /** The test both waits poll: as many ready nodes as peers. */
    method AllReady() returns (yes: bool)
      ensures yes <==> |readyNodes| == |peerHosts|
      ensures yes && readyNodes <= peerHosts ==> readyNodes == peerHosts
    {
      yes := |readyNodes| == |peerHosts|;
      if yes && readyNodes <= peerHosts {
        SubsetCount(readyNodes, peerHosts);
      }
    }

    method AllConsumed() returns (yes: bool)
      ensures yes <==> |consumedNodes| == |peerHosts|
      ensures yes && consumedNodes <= peerHosts ==> consumedNodes == peerHosts
    {
      yes := |consumedNodes| == |peerHosts|;
      if yes && consumedNodes <= peerHosts {
        SubsetCount(consumedNodes, peerHosts);
      }
    }

    /** The tail of Complete when no message arrives in between. */
    method FinishComplete()
      modifies this
      ensures State() == Do(old(State()), Completes)
    {
      readOp, writeOp := false, false;
      lastCompletedSeqId := currentSeqId;
      currentSeqId := INIT_SEQ_ID;
      readyNodes := {};
      consumedNodes := {};
      isPublishMeta := true;
    }

    /** The control messages that arrive while Complete sleeps. */
    method Handle(messages: seq<Call>)
      requires forall i | 0 <= i < |messages| :: messages[i].Ready? || messages[i].Consumed?
      modifies this
      ensures State() == DoAll(old(State()), messages)
    {
      for i := 0 to |messages|
        invariant State() == DoAll(old(State()), messages[..i])
      {
        assert messages[..i + 1][..i] == messages[..i];
        if messages[i].Ready? {
          HandleWeightReady(messages[i].from);
        } else {
          var ok := HandleWeightConsumed(messages[i].seqId, messages[i].from);
        }
      }
      assert messages[..|messages|] == messages;
    }

    /** Complete after its sends. A process that has written polls until it has counted as many nodes
        as it has peers; `arrivals[k]` is what arrives during the k-th sleep. It returns true if the wait
        ends within these; then every peer has sent a WeightConsumed of this round or a later one (if
        only peers send), and the round is over. */
    method Complete(arrivals: seq<seq<Call>>) returns (done: bool)
      requires forall k, i | 0 <= k < |arrivals| && 0 <= i < |arrivals[k]| :: arrivals[k][i].Ready? || arrivals[k][i].Consumed?
      modifies this
      ensures done <==> !old(writeOp) || exists k | 0 <= k <= |arrivals| :: |CountedBy(old(State()), arrivals[..k])| == |peerHosts|
      ensures done && old(writeOp) && CountedBy(old(State()), arrivals) <= peerHosts ==>
        forall p | p in peerHosts :: p in old(consumedNodes) || SentTimely(arrivals, old(currentSeqId), p)
      ensures done ==> exists k | 0 <= k <= |arrivals| :: State() == Do(DoAll(old(State()), Flat(arrivals[..k])), Completes)
      ensures !done ==> State() == DoAll(old(State()), Flat(arrivals))
    {
      ghost var s := State();
      var k := 0;
      assert DoAll(s, Flat(arrivals[..0])) == s;
      if writeOp {
        while |consumedNodes| != |peerHosts|
          invariant 0 <= k <= |arrivals| && State() == DoAll(s, Flat(arrivals[..k]))
          invariant forall j | 0 <= j < k :: |CountedBy(s, arrivals[..j])| != |peerHosts|
          decreases |arrivals| - k
        {
          if k == |arrivals| {
            assert arrivals[..k] == arrivals;
            return false;
          }
          NextBatch(s, arrivals, k);
          Handle(arrivals[k]);
          k := k + 1;
        }
        AllCounted(s, arrivals, k, peerHosts);
      }
      FinishComplete();
      return true;
    }
  }

  function Flat(batches: seq<seq<Call>>): seq<Call> {
    if batches == [] then [] else Flat(batches[..|batches| - 1]) + batches[|batches| - 1]
  }

  /** The nodes counted once these messages have arrived. */
  function CountedBy(s: PullState, batches: seq<seq<Call>>): set<NodeInfo> {
    DoAll(s, Flat(batches)).consumedNodes
  }

  predicate SentTimely(batches: seq<seq<Call>>, round: int, p: NodeInfo) {
    exists m | m in Flat(batches) :: m.Consumed? && m.from == p && m.seqId >= round
  }

  lemma {:induction false} DoConcat(s: PullState, a: seq<Call>, b: seq<Call>)
    ensures DoAll(s, a + b) == DoAll(DoAll(s, a), b)
    decreases |b|
  {
    if b == [] {
      assert a + b == a;
    } else {
      DoConcat(s, a, b[..|b| - 1]);
      assert (a + b)[..|a + b| - 1] == a + b[..|b| - 1];
    }
  }

  lemma NextBatch(s: PullState, batches: seq<seq<Call>>, k: nat)
    requires k < |batches|
    ensures DoAll(s, Flat(batches[..k + 1])) == DoAll(DoAll(s, Flat(batches[..k])), batches[k])
  {
    assert batches[..k + 1][..k] == batches[..k];
    DoConcat(s, Flat(batches[..k]), batches[k]);
  }

  /** Messages leave the round alone, and count exactly the senders of timely ones. */
  lemma {:induction false} MessagesCount(s: PullState, messages: seq<Call>, n: NodeInfo)
    requires forall i | 0 <= i < |messages| :: messages[i].Ready? || messages[i].Consumed?
    ensures DoAll(s, messages).currentSeqId == s.currentSeqId
    ensures n in DoAll(s, messages).consumedNodes <==>
            n in s.consumedNodes || exists m | m in messages :: m.Consumed? && m.from == n && m.seqId >= s.currentSeqId
  {
    if messages != [] {
      var front, last := messages[..|messages| - 1], messages[|messages| - 1];
      MessagesCount(s, front, n);
      assert messages == front + [last];
      assert forall m :: m in messages <==> m in front || m == last;
    }
  }

  lemma {:induction false} FlatMessages(batches: seq<seq<Call>>)
    requires forall k, i | 0 <= k < |batches| && 0 <= i < |batches[k]| :: batches[k][i].Ready? || batches[k][i].Consumed?
    ensures forall i | 0 <= i < |Flat(batches)| :: Flat(batches)[i].Ready? || Flat(batches)[i].Consumed?
  {
    if batches != [] {
      var front, last := batches[..|batches| - 1], batches[|batches| - 1];
      FlatMessages(front);
      assert forall i | 0 <= i < |last| :: last[i].Ready? || last[i].Consumed?;
    }
  }

  lemma {:induction false} FlatPrefix(batches: seq<seq<Call>>, k: nat, m: Call)
    requires k <= |batches| && m in Flat(batches[..k])
    ensures m in Flat(batches)
    decreases |batches|
  {
    if k < |batches| {
      assert batches[..|batches| - 1][..k] == batches[..k];
      FlatPrefix(batches[..|batches| - 1], k, m);
    } else {
      assert batches[..k] == batches;
    }
  }

  lemma AllCounted(s: PullState, arrivals: seq<seq<Call>>, k: nat, peers: set<NodeInfo>)
    requires forall k, i | 0 <= k < |arrivals| && 0 <= i < |arrivals[k]| :: arrivals[k][i].Ready? || arrivals[k][i].Consumed?
    requires k <= |arrivals| && |CountedBy(s, arrivals[..k])| == |peers|
    ensures CountedBy(s, arrivals) <= peers ==>
      forall p | p in peers :: p in s.consumedNodes || SentTimely(arrivals, s.currentSeqId, p)
  {
    if CountedBy(s, arrivals) <= peers {
      forall n
        ensures n in CountedBy(s, arrivals[..k]) ==> n in CountedBy(s, arrivals)
        ensures n in CountedBy(s, arrivals[..k]) ==> n in s.consumedNodes || SentTimely(arrivals, s.currentSeqId, n)
      {
        CountedSent(s, arrivals, k, n);
      }
      SubsetCount(CountedBy(s, arrivals[..k]), peers);
    }
  }

  lemma CountedSent(s: PullState, arrivals: seq<seq<Call>>, k: nat, n: NodeInfo)
    requires forall k, i | 0 <= k < |arrivals| && 0 <= i < |arrivals[k]| :: arrivals[k][i].Ready? || arrivals[k][i].Consumed?
    requires k <= |arrivals|
    ensures n in CountedBy(s, arrivals[..k]) ==> n in CountedBy(s, arrivals)
    ensures n in CountedBy(s, arrivals[..k]) ==> n in s.consumedNodes || SentTimely(arrivals, s.currentSeqId, n)
  {
    FlatMessages(arrivals);
    FlatMessages(arrivals[..k]);
    MessagesCount(s, Flat(arrivals), n);
    MessagesCount(s, Flat(arrivals[..k]), n);
    if m :| m in Flat(arrivals[..k]) && m.Consumed? && m.from == n && m.seqId >= s.currentSeqId {
      FlatPrefix(arrivals, k, m);
    }
  }
}
