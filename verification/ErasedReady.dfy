/** How a WeightReady gets erased: a run with one writer and one reader, in which every message arrives. */
module ErasedReady {
  import opened NodeEntries
  import opened PullNode
  import opened PullProtocol
  import opened LostReady
  import opened Progress

  function One(w: NodeInfo, r: NodeInfo): Config {
    Config({w}, {r})
  }

  /** The state of this one writer and this one reader. */
  ghost predicate Shows(s: State, w: NodeInfo, r: NodeInfo, W: Process, R: Process, ready: set<Message>, consumed: set<Message>) {
    Typed(One(w, r), s) && s.w[w] == W && s.r[r] == R && s.ready == ready && s.consumed == consumed
  }

  datatype Trace = Trace(states: seq<State>, steps: seq<Step>) {
    function Last(): State
      requires states != []
    {
      states[|states| - 1]
    }
  }

  predicate Lossy(step: Step) {
    step.LoseReady? || step.LoseConsumed?
  }

  /** A run none of whose steps is the loss of a message. */
  ghost predicate Lossless(c: Config, t: Trace) {
    IsTrace(c, t.states, t.steps) && forall i | 0 <= i < |t.steps| :: !Lossy(t.steps[i])
  }

  lemma Extend(c: Config, t: Trace, step: Step) returns (more: Trace)
    requires Lossless(c, t) && !Lossy(step) && Typed(c, t.Last()) && Enabled(c, t.Last(), step)
    ensures Lossless(c, more) && more.Last() == Apply(c, t.Last(), step)
  {
    more := Trace(t.states + [Apply(c, t.Last(), step)], t.steps + [step]);
    forall i | 0 <= i < |more.steps|
      ensures Follows(c, more.states, more.steps, i)
    {
      assert i < |t.steps| ==> Follows(c, t.states, t.steps, i);
    }
  }

  lemma WriterGoes(w: NodeInfo, r: NodeInfo, t: Trace, step: Step, W: Process, R: Process) returns (more: Trace)
    requires Lossless(One(w, r), t) && Shows(t.Last(), w, r, W, R, {}, {})
    requires OfWriter(step) && step.w == w && WriterMay(One(w, r), W, step) && !step.SendReady?
    ensures Lossless(One(w, r), more) && Shows(more.Last(), w, r, WriterMove(W, step), R, {}, {})
    ensures more.Last().log == t.Last().log && forall key | key in t.Last().data[w] :: key in more.Last().data[w]
    ensures step.WriteCell? ==> step.key in more.Last().data[w]
  {
    more := Extend(One(w, r), t, step);
  }

  lemma ReaderGoes(w: NodeInfo, r: NodeInfo, t: Trace, step: Step, W: Process, R: Process) returns (more: Trace)
    requires Lossless(One(w, r), t) && Shows(t.Last(), w, r, W, R, {}, {})
    requires OfReader(step) && step.r == r && ReaderMay(One(w, r), R, step) && !step.SendConsumed?
    requires step.Fetch? ==> step.key in t.Last().data[w]
    ensures Lossless(One(w, r), more) && Shows(more.Last(), w, r, W, ReaderMove(R, step), {}, {})
    ensures |more.Last().log| == |t.Last().log| + (if step.Fetch? then 1 else 0) && more.Last().data == t.Last().data
  {
    more := Extend(One(w, r), t, step);
  }

  lemma ReadyIsSent(w: NodeInfo, r: NodeInfo, t: Trace, W: Process, R: Process) returns (more: Trace)
    requires Lossless(One(w, r), t) && Shows(t.Last(), w, r, W, R, {}, {})
    requires W.phase.Sending? && W.sentTo == {} && W.pull.currentSeqId == W.round
    ensures Lossless(One(w, r), more)
    ensures Shows(more.Last(), w, r, W.(sentTo := {r}), R, {Message(w, r, W.round)}, {})
    ensures more.Last().log == t.Last().log && more.Last().data == t.Last().data
  {
    more := Extend(One(w, r), t, SendReady(w, r));
    assert {} + {r} == {r} && {} + {Message(w, r, W.round)} == {Message(w, r, W.round)};
  }

  lemma ReadyArrives(w: NodeInfo, r: NodeInfo, t: Trace, W: Process, R: Process) returns (more: Trace)
    requires Lossless(One(w, r), t) && Shows(t.Last(), w, r, W, R, {Message(w, r, W.round)}, {})
    ensures Lossless(One(w, r), more) && Shows(more.Last(), w, r, W, R.(pull := OnWeightReady(R.pull, w)), {}, {})
    ensures more.Last().log == t.Last().log && more.Last().data == t.Last().data
  {
    more := Extend(One(w, r), t, DeliverReady(Message(w, r, W.round)));
  }

  lemma ConsumedIsSent(w: NodeInfo, r: NodeInfo, t: Trace, W: Process, R: Process) returns (more: Trace)
    requires Lossless(One(w, r), t) && Shows(t.Last(), w, r, W, R, {}, {})
    requires R.phase.Sending? && R.sentTo == {} && R.pull.currentSeqId == R.round
    ensures Lossless(One(w, r), more) && more.Last().log == t.Last().log
    ensures Shows(more.Last(), w, r, W, R.(sentTo := {w}), {}, {Message(w, r, R.round)})
  {
    more := Extend(One(w, r), t, SendConsumed(r, w));
    assert {} + {w} == {w} && {} + {Message(w, r, R.round)} == {Message(w, r, R.round)};
  }

  lemma ConsumedArrives(w: NodeInfo, r: NodeInfo, t: Trace, W: Process, R: Process) returns (more: Trace)
    requires Lossless(One(w, r), t) && Shows(t.Last(), w, r, W, R, {}, {Message(w, r, R.round)})
    ensures Lossless(One(w, r), more) && more.Last().log == t.Last().log
    ensures Shows(more.Last(), w, r, W.(pull := OnWeightConsumed(W.pull, R.round, r)), R, {}, {})
  {
    more := Extend(One(w, r), t, DeliverConsumed(Message(w, r, R.round)));
  }

  lemma AnswerArrives(w: NodeInfo, r: NodeInfo, t: Trace, W: Process, R: Process) returns (more: Trace)
    requires Lossless(One(w, r), t) && Shows(t.Last(), w, r, W, R, {}, {})
    requires R.phase.Sending? && R.sentTo == {} && R.pull.currentSeqId == R.round
    ensures Lossless(One(w, r), more) && more.Last().log == t.Last().log
    ensures Shows(more.Last(), w, r, W.(pull := OnWeightConsumed(W.pull, R.round, r)), R.(sentTo := {w}), {}, {})
  {
    more := ConsumedIsSent(w, r, t, W, R);
    more := ConsumedArrives(w, r, more, W, R.(sentTo := {w}));
  }

  /** A writer that has sent its WeightReady of the given round and waits. */
  function Waiting(round: nat, last: int, published: bool, phase: Phase, r: NodeInfo): Process {
    Process(PullState(round, last, false, true, {}, {}, published), round, phase, false, {r})
  }

  /** The writer has put the tensor of round 0 and is at the start of Complete. */
  const PUT: Process := Process(FRESH.(currentSeqId := 0, writeOp := true), 0, Sending, false, {})

  lemma TensorIsPut(w: NodeInfo, r: NodeInfo) returns (t: Trace)
    ensures Lossless(One(w, r), t) && Shows(t.Last(), w, r, PUT, START, {}, {}) && 0 in t.Last().data[w]
  {
    t := Trace([Init(One(w, r))], []);
    var W := START.(pull := FRESH.(currentSeqId := 0, writeOp := true));
    t := WriterGoes(w, r, t, BeginPut(w), START, START);
    t := WriterGoes(w, r, t, WriteCell(w, 0, 0), W, START);
    t := WriterGoes(w, r, t, BeginCompleteWrite(w), W, START);
  }

  /** The writer sends its WeightReady and waits; the reader has got it. */
  lemma RoundStarts(w: NodeInfo, r: NodeInfo) returns (t: Trace)
    ensures Lossless(One(w, r), t)
    ensures Shows(t.Last(), w, r, Waiting(0, INIT_SEQ_ID, false, Awaiting, r), START.(pull := FRESH.(readyNodes := {w})), {}, {})
    ensures 0 in t.Last().data[w]
  {
    t := TensorIsPut(w, r);
    t := ReadyIsSent(w, r, t, PUT, START);
    var W := Waiting(0, INIT_SEQ_ID, false, Sending, r);
    t := ReadyArrives(w, r, t, W, START);
    assert {} + {w} == {w};
    t := WriterGoes(w, r, t, StartWait(w), W, START.(pull := FRESH.(readyNodes := {w})));
  }

  /** The reader after it has read in round 0. */
  function HasRead(w: NodeInfo): Process {
    Process(PullState(0, INIT_SEQ_ID, true, false, {w}, {}, false), 0, Working, true, {})
  }

  lemma RoundIsRead(w: NodeInfo, r: NodeInfo) returns (t: Trace)
    ensures Lossless(One(w, r), t) && |t.Last().log| > 0
    ensures Shows(t.Last(), w, r, Waiting(0, INIT_SEQ_ID, false, Awaiting, r), HasRead(w), {}, {})
  {
    t := RoundStarts(w, r);
    var W := Waiting(0, INIT_SEQ_ID, false, Awaiting, r);
    var R1 := START.(pull := FRESH.(readyNodes := {w}));
    t := ReaderGoes(w, r, t, BeginGet(r), W, R1);
    var R2 := R1.(pull := R1.pull.(currentSeqId := 0, readOp := true));
    t := ReaderGoes(w, r, t, WaitReady(r), W, R2);
    t := ReaderGoes(w, r, t, Fetch(r, w, 0), W, HasRead(w));
  }

  /** The reader after it has sent its WeightConsumed of round 0; its ready nodes are not cleared yet. */
  function Answered(w: NodeInfo): Process {
    HasRead(w).(phase := Sending, sentTo := {w})
  }

  /** The reader answers, and its WeightConsumed arrives. */
  lemma RoundIsAnswered(w: NodeInfo, r: NodeInfo) returns (t: Trace)
    ensures Lossless(One(w, r), t) && |t.Last().log| > 0
    ensures var W := Waiting(0, INIT_SEQ_ID, false, Awaiting, r);
            Shows(t.Last(), w, r, W.(pull := W.pull.(consumedNodes := {r})), Answered(w), {}, {})
  {
    t := RoundIsRead(w, r);
    var W := Waiting(0, INIT_SEQ_ID, false, Awaiting, r);
    t := ReaderGoes(w, r, t, BeginCompleteRead(r), W, HasRead(w));
    t := AnswerArrives(w, r, t, W, HasRead(w).(phase := Sending));
    assert OnWeightConsumed(W.pull, 0, r) == W.pull.(consumedNodes := {r}) by { assert {} + {r} == {r}; }
  }

  /** The writer in round 1, before it puts anything. */
  const NEXT: Process := Process(PullState(INIT_SEQ_ID, 0, false, false, {}, {}, true), 1, Working, false, {})

  /** The writer leaves round 0 while the reader is still leaving it, too. */
  lemma WriterLeaves(w: NodeInfo, r: NodeInfo) returns (t: Trace)
    ensures Lossless(One(w, r), t) && |t.Last().log| > 0
    ensures Shows(t.Last(), w, r, NEXT, Answered(w), {}, {})
  {
    t := RoundIsAnswered(w, r);
    var W := Waiting(0, INIT_SEQ_ID, false, Awaiting, r);
    var W1, R := W.(pull := W.pull.(consumedNodes := {r})), Answered(w);
    t := WriterGoes(w, r, t, LeaveWait(w), W1, R);
    var W2 := W1.(phase := SeqReset, pull := ResetSeqId(W1.pull));
    t := WriterGoes(w, r, t, WriterClearReady(w), W2, R);
    t := WriterGoes(w, r, t, WriterFinish(w), W2.(phase := ReadyReset, pull := ClearReady(W2.pull)), R);
  }

  /** It starts round 1 and sends its WeightReady, which arrives before the reader clears. */
  lemma NextRoundAnnounced(w: NodeInfo, r: NodeInfo) returns (t: Trace)
    ensures Lossless(One(w, r), t) && |t.Last().log| > 0
    ensures Shows(t.Last(), w, r, Waiting(1, 0, true, Sending, r), Answered(w), {}, {})
  {
    t := WriterLeaves(w, r);
    var W := NEXT.(pull := NEXT.pull.(currentSeqId := 1, writeOp := true));
    t := WriterGoes(w, r, t, BeginPut(w), NEXT, Answered(w));
    t := WriterGoes(w, r, t, BeginCompleteWrite(w), W, Answered(w));
    t := ReadyIsSent(w, r, t, W.(phase := Sending), Answered(w));
    t := ReadyArrives(w, r, t, Waiting(1, 0, true, Sending, r), Answered(w));
    assert {w} + {w} == {w};
  }

  /** The reader clears, and the WeightReady is gone. */
  lemma RunGetsStuck(w: NodeInfo, r: NodeInfo) returns (t: Trace)
    ensures Lossless(One(w, r), t) && |t.Last().log| > 0
    ensures StuckPair(t.Last(), w, r) && t.Last().ready == t.Last().consumed == {}
  {
    t := NextRoundAnnounced(w, r);
    var W, R := Waiting(1, 0, true, Sending, r), Answered(w);
    t := ReaderGoes(w, r, t, LeaveSend(r), W, R);
    var R1 := R.(phase := SeqReset, pull := ResetSeqId(R.pull));
    t := ReaderGoes(w, r, t, ReaderClearReady(r), W, R1);
    t := ReaderGoes(w, r, t, ReaderFinish(r), W, R1.(phase := ReadyReset, pull := ClearReady(R1.pull)));
  }

  /** A run of a writer and a reader in which no message is lost, all have arrived and a read was made,
      and which ends stuck. What lost the WeightReady is its own delivery. */
  lemma ReadyIsErased(w: NodeInfo, r: NodeInfo) returns (states: seq<State>, steps: seq<Step>)
    ensures IsTrace(One(w, r), states, steps)
    ensures forall i | 0 <= i < |steps| :: !steps[i].LoseReady? && !steps[i].LoseConsumed?
    ensures states[|steps|].ready == states[|steps|].consumed == {} && |states[|steps|].log| > 0
    ensures StuckPair(states[|steps|], w, r)
    ensures exists i :: LosesAt(states, steps, i, w, r) && steps[i] == DeliverReady(Message(w, r, states[i].w[w].round))
  {
    var t := RunGetsStuck(w, r);
    states, steps := t.states, t.steps;
    assert forall i | 0 <= i < |steps| :: !Lossy(steps[i]);
    StuckIsDoomed(t.Last(), w, r);
    LostInRun(One(w, r), states, steps, w, r);
    var i :| LosesAt(states, steps, i, w, r);
  }
}
