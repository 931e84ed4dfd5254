/** Exactly when the pull protocol makes progress. The waits are taken without time-outs: a wait that
    cannot return is reported by the code after a while, and repeated or given up by its caller. */
module Progress {
  import opened FiniteSets
  import opened NodeEntries
  import opened PullProtocol
  import opened LostReady

  /** The reader was told of the writer's round, the message is no longer on its way, and the reader
      does not and will not know: it still works on that round without the writer among its ready
      nodes, or it has yet to clear them, or it cleared them before the message could be kept. */
  predicate Doomed(W: Process, R: Process, w: NodeInfo, r: NodeInfo, inFlight: bool) {
    && r in W.sentTo && !inFlight
    && (|| (W.round == R.round && Fresh(R) && w !in R.pull.readyNodes)
        || (W.round == R.round + 1 && !(R.phase.ReadyReset? && w in R.pull.readyNodes)))
  }

  predicate DoomedPair(s: State, w: NodeInfo, r: NodeInfo) {
    w in s.w && r in s.r && Doomed(s.w[w], s.r[r], w, r, Message(w, r, s.w[w].round) in s.ready)
  }

  /** The steps that lose a WeightReady: the network drops it, or it arrives while the reader has not
      cleared the ready nodes of the round before. */
  predicate LosesReady(s: State, step: Step, w: NodeInfo, r: NodeInfo)
    requires w in s.w && r in s.r
  {
    var m := Message(w, r, s.w[w].round);
    || step == LoseReady(m)
    || (step == DeliverReady(m) && s.w[w].round == s.r[r].round + 1 && !s.r[r].phase.ReadyReset?)
  }

  // ---------- one step ----------

  lemma WriterMoveDooms(c: Config, W: Process, R: Process, w: NodeInfo, r: NodeInfo, inFlight: bool, back: bool, step: Step)
    requires OfWriter(step) && WriterMay(c, W, step) && r in c.readers
    requires WriterFits(c, W) && ReaderFits(c, R) && PairOk(W, R, w, r, inFlight, back)
    ensures step.WriterFinish? ==> !inFlight && !Doomed(W, R, w, r, inFlight) && !Doomed(WriterMove(W, step), R, w, r, false)
    ensures !step.WriterFinish? ==>
              (Doomed(WriterMove(W, step), R, w, r, inFlight || (step.SendReady? && step.r == r)) <==> Doomed(W, R, w, r, inFlight))
  {
  }

  lemma ReaderMoveDooms(c: Config, W: Process, R: Process, w: NodeInfo, r: NodeInfo, inFlight: bool, back: bool, step: Step)
    requires OfReader(step) && ReaderMay(c, R, step) && w in c.writers
    requires WriterFits(c, W) && ReaderFits(c, R) && PairOk(W, R, w, r, inFlight, back)
    ensures Doomed(W, ReaderMove(R, step), w, r, inFlight) <==> Doomed(W, R, w, r, inFlight)
  {
    if step.WaitReady? {
      SubsetCount(R.pull.readyNodes, c.writers);
    }
  }

  lemma DoomedByWriter(c: Config, s: State, step: Step, w: NodeInfo, r: NodeInfo)
    requires Typed(c, s) && NetFits(c, s) && Enabled(c, s, step) && OfWriter(step) && w in c.writers && r in c.readers
    requires WriterFits(c, s.w[w]) && ReaderFits(c, s.r[r]) && PairFits(s, w, r)
    ensures DoomedPair(WriterStep(c, s, step), w, r) <==> DoomedPair(s, w, r) || LosesReady(s, step, w, r)
  {
    var s', m := WriterStep(c, s, step), Message(w, r, s.w[w].round);
    if step.w == w {
      WriterMoveDooms(c, s.w[w], s.r[r], w, r, m in s.ready, m in s.consumed, step);
      assert s'.w[w] == WriterMove(s.w[w], step);
    } else {
      assert s'.w[w] == s.w[w] && (m in s'.ready <==> m in s.ready);
    }
  }

  lemma DoomedAfterReader(c: Config, s: State, s': State, step: Step, w: NodeInfo, r: NodeInfo)
    requires Typed(c, s) && Enabled(c, s, step) && OfReader(step) && w in c.writers && r in c.readers
    requires WriterFits(c, s.w[w]) && ReaderFits(c, s.r[r]) && PairFits(s, w, r)
    requires s'.w == s.w && s'.ready == s.ready && s'.r == s.r[step.r := ReaderMove(s.r[step.r], step)]
    ensures DoomedPair(s', w, r) <==> DoomedPair(s, w, r)
  {
    if step.r == r {
      var m := Message(w, r, s.w[w].round);
      ReaderMoveDooms(c, s.w[w], s.r[r], w, r, m in s.ready, m in s.consumed, step);
    }
  }

  lemma DoomedByReader(c: Config, s: State, step: Step, w: NodeInfo, r: NodeInfo)
    requires Typed(c, s) && Enabled(c, s, step) && OfReader(step) && w in c.writers && r in c.readers
    requires WriterFits(c, s.w[w]) && ReaderFits(c, s.r[r]) && PairFits(s, w, r)
    ensures DoomedPair(ReaderStep(c, s, step), w, r) <==> DoomedPair(s, w, r) || LosesReady(s, step, w, r)
  {
    DoomedAfterReader(c, s, ReaderStep(c, s, step), step, w, r);
  }

  lemma DoomedByNet(c: Config, s: State, step: Step, w: NodeInfo, r: NodeInfo)
    requires Typed(c, s) && NetFits(c, s) && Enabled(c, s, step) && !OfWriter(step) && !OfReader(step)
    requires w in c.writers && r in c.readers
    requires WriterFits(c, s.w[w]) && ReaderFits(c, s.r[r]) && PairFits(s, w, r)
    ensures DoomedPair(NetStep(c, s, step), w, r) <==> DoomedPair(s, w, r) || LosesReady(s, step, w, r)
  {
  }

  lemma DoomedStep(c: Config, s: State, step: Step, w: NodeInfo, r: NodeInfo)
    requires Typed(c, s) && NetFits(c, s) && Enabled(c, s, step) && w in c.writers && r in c.readers
    requires WriterFits(c, s.w[w]) && ReaderFits(c, s.r[r]) && PairFits(s, w, r)
    ensures DoomedPair(Apply(c, s, step), w, r) <==> DoomedPair(s, w, r) || LosesReady(s, step, w, r)
  {
    if OfWriter(step) {
      DoomedByWriter(c, s, step, w, r);
    } else if OfReader(step) {
      DoomedByReader(c, s, step, w, r);
    } else {
      DoomedByNet(c, s, step, w, r);
    }
  }

  /** A pair becomes doomed by exactly the steps that lose a WeightReady, and never recovers. */
  lemma DoomedExactly(c: Config, s: State, step: Step, w: NodeInfo, r: NodeInfo)
    requires Inv(c, s) && Enabled(c, s, step) && w in c.writers && r in c.readers
    ensures DoomedPair(Apply(c, s, step), w, r) <==> DoomedPair(s, w, r) || LosesReady(s, step, w, r)
  {
    assert PairFits(s, w, r) && WriterFits(c, s.w[w]) && ReaderFits(c, s.r[r]);
    DoomedStep(c, s, step, w, r);
  }

  /** A stuck pair is a doomed one that has reached the round in question. */
  lemma StuckIsDoomed(s: State, w: NodeInfo, r: NodeInfo)
    requires w in s.w && r in s.r
    ensures StuckPair(s, w, r) <==> DoomedPair(s, w, r) && s.w[w].round == s.r[r].round
  {
  }

  // ---------- answers ----------

  /** The reader has answered the writer's round, and the answer is neither counted nor on its way. */
  predicate Unanswered(W: Process, R: Process, w: NodeInfo, r: NodeInfo, back: bool) {
    && r !in W.pull.consumedNodes && !back
    && ((W.round == R.round && w in R.sentTo) || R.round == W.round + 1)
  }

  predicate UnansweredPair(s: State, w: NodeInfo, r: NodeInfo) {
    w in s.w && r in s.r && Unanswered(s.w[w], s.r[r], w, r, Message(w, r, s.w[w].round) in s.consumed)
  }

  lemma WriterMoveAnswers(c: Config, W: Process, R: Process, w: NodeInfo, r: NodeInfo, inFlight: bool, back: bool, step: Step)
    requires OfWriter(step) && WriterMay(c, W, step) && r in c.readers
    requires WriterFits(c, W) && ReaderFits(c, R) && PairOk(W, R, w, r, inFlight, back)
    ensures step.WriterFinish? ==> !back && !Unanswered(W, R, w, r, back) && !Unanswered(WriterMove(W, step), R, w, r, false)
    ensures !step.WriterFinish? ==> (Unanswered(WriterMove(W, step), R, w, r, back) <==> Unanswered(W, R, w, r, back))
  {
  }

  lemma ReaderMoveAnswers(c: Config, W: Process, R: Process, w: NodeInfo, r: NodeInfo, inFlight: bool, back: bool, step: Step)
    requires OfReader(step) && ReaderMay(c, R, step) && w in c.writers
    requires WriterFits(c, W) && ReaderFits(c, R) && PairOk(W, R, w, r, inFlight, back)
    ensures Unanswered(W, ReaderMove(R, step), w, r, back || (step.SendConsumed? && step.w == w)) <==> Unanswered(W, R, w, r, back)
  {
  }

  lemma UnansweredByWriter(c: Config, s: State, step: Step, w: NodeInfo, r: NodeInfo)
    requires Typed(c, s) && NetFits(c, s) && Enabled(c, s, step) && OfWriter(step) && w in c.writers && r in c.readers
    requires WriterFits(c, s.w[w]) && ReaderFits(c, s.r[r]) && PairFits(s, w, r)
    ensures UnansweredPair(WriterStep(c, s, step), w, r) <==> UnansweredPair(s, w, r)
  {
    var m := Message(w, r, s.w[w].round);
    if step.w == w {
      WriterMoveAnswers(c, s.w[w], s.r[r], w, r, m in s.ready, m in s.consumed, step);
    }
  }

  lemma UnansweredByReader(c: Config, s: State, step: Step, w: NodeInfo, r: NodeInfo)
    requires Typed(c, s) && NetFits(c, s) && Enabled(c, s, step) && OfReader(step) && w in c.writers && r in c.readers
    requires WriterFits(c, s.w[w]) && ReaderFits(c, s.r[r]) && PairFits(s, w, r)
    ensures UnansweredPair(ReaderStep(c, s, step), w, r) <==> UnansweredPair(s, w, r)
  {
    var s', m := ReaderStep(c, s, step), Message(w, r, s.w[w].round);
    if step.r == r {
      ReaderMoveAnswers(c, s.w[w], s.r[r], w, r, m in s.ready, m in s.consumed, step);
      ReaderMovePair(c, s.w[w], s.r[r], w, r, m in s.ready, m in s.consumed, step);
      assert s'.r[r] == ReaderMove(s.r[r], step);
      assert m in s'.consumed <==> m in s.consumed || (step.SendConsumed? && step.w == w);
    } else {
      assert s'.r[r] == s.r[r] && (m in s'.consumed <==> m in s.consumed);
    }
  }

  lemma UnansweredByNet(c: Config, s: State, step: Step, w: NodeInfo, r: NodeInfo)
    requires Typed(c, s) && NetFits(c, s) && Enabled(c, s, step) && !OfWriter(step) && !OfReader(step)
    requires w in c.writers && r in c.readers
    requires WriterFits(c, s.w[w]) && ReaderFits(c, s.r[r]) && PairFits(s, w, r)
    ensures UnansweredPair(NetStep(c, s, step), w, r) <==>
            UnansweredPair(s, w, r) || step == LoseConsumed(Message(w, r, s.w[w].round))
  {
  }

  lemma UnansweredStep(c: Config, s: State, step: Step, w: NodeInfo, r: NodeInfo)
    requires Typed(c, s) && NetFits(c, s) && Enabled(c, s, step) && w in c.writers && r in c.readers
    requires WriterFits(c, s.w[w]) && ReaderFits(c, s.r[r]) && PairFits(s, w, r)
    ensures UnansweredPair(Apply(c, s, step), w, r) <==>
            UnansweredPair(s, w, r) || step == LoseConsumed(Message(w, r, s.w[w].round))
  {
    if OfWriter(step) {
      UnansweredByWriter(c, s, step, w, r);
    } else if OfReader(step) {
      UnansweredByReader(c, s, step, w, r);
    } else {
      UnansweredByNet(c, s, step, w, r);
    }
  }

  /** Only the network loses an answer. */
  lemma UnansweredExactly(c: Config, s: State, step: Step, w: NodeInfo, r: NodeInfo)
    requires Inv(c, s) && Enabled(c, s, step) && w in c.writers && r in c.readers
    ensures UnansweredPair(Apply(c, s, step), w, r) <==>
            UnansweredPair(s, w, r) || step == LoseConsumed(Message(w, r, s.w[w].round))
  {
    assert PairFits(s, w, r) && WriterFits(c, s.w[w]) && ReaderFits(c, s.r[r]);
    UnansweredStep(c, s, step, w, r);
  }

  // ---------- some step is always possible ----------

  /** Steps that bring their process or message forward: no repeated put or read, no loss. */
  predicate Advances(s: State, step: Step) {
    match step
    case WriteCell(_, _, _) => false
    case BeginPut(w) => w in s.w && !s.w[w].pull.writeOp
    case BeginGet(r) => r in s.r && !s.r[r].pull.readOp
    case WaitReady(r) => r in s.r && !s.r[r].waited
    case Fetch(_, _, _) => false
    case LoseReady(_) => false
    case LoseConsumed(_) => false
    case _ => true
  }

  ghost predicate CanAdvance(c: Config, s: State)
    requires Typed(c, s)
  {
    exists step :: Enabled(c, s, step) && Advances(s, step)
  }

  lemma WriterCanMove(c: Config, s: State, w: NodeInfo)
    requires Typed(c, s) && w in c.writers && WriterFits(c, s.w[w]) && !s.w[w].phase.Awaiting?
    ensures CanAdvance(c, s)
  {
    var p := s.w[w];
    var step :=
      match p.phase
      case Working => if p.pull.writeOp then BeginCompleteWrite(w) else BeginPut(w)
      case Sending => if r :| r in c.readers && r !in p.sentTo then SendReady(w, r) else StartWait(w)
      case SeqReset => WriterClearReady(w)
      case _ => WriterFinish(w);
    assert Enabled(c, s, step) && Advances(s, step);
  }

  lemma ReaderCanMove(c: Config, s: State, r: NodeInfo)
    requires Typed(c, s) && r in c.readers && ReaderFits(c, s.r[r]) && !Fresh(s.r[r])
    ensures CanAdvance(c, s)
  {
    var p := s.r[r];
    var step :=
      match p.phase
      case Working => if p.pull.readOp then BeginCompleteRead(r) else BeginGet(r)
      case Sending => if w :| w in c.writers && w !in p.sentTo then SendConsumed(r, w) else LeaveSend(r)
      case SeqReset => ReaderClearReady(r)
      case _ => ReaderFinish(r);
    assert Enabled(c, s, step) && Advances(s, step);
  }

  /** Everybody waits and nothing is on its way. */
  ghost predicate Quiet(c: Config, s: State)
    requires Typed(c, s)
  {
    && (forall w | w in c.writers :: s.w[w].phase.Awaiting?)
    && (forall r | r in c.readers :: Fresh(s.r[r]))
    && s.ready == {} && s.consumed == {}
  }

  lemma OtherwiseMoves(c: Config, s: State)
    requires Inv(c, s) && !Quiet(c, s)
    ensures CanAdvance(c, s)
  {
    if w :| w in c.writers && !s.w[w].phase.Awaiting? {
      assert WriterFits(c, s.w[w]);
      WriterCanMove(c, s, w);
    } else if r :| r in c.readers && !Fresh(s.r[r]) {
      assert ReaderFits(c, s.r[r]);
      ReaderCanMove(c, s, r);
    } else {
      MessageArrives(c, s);
    }
  }

  lemma MessageArrives(c: Config, s: State)
    requires Typed(c, s) && NetFits(c, s) && (s.ready != {} || s.consumed != {})
    ensures CanAdvance(c, s)
  {
    if m :| m in s.ready {
      assert Enabled(c, s, DeliverReady(m)) && Advances(s, DeliverReady(m));
    } else {
      var m :| m in s.consumed;
      assert Enabled(c, s, DeliverConsumed(m)) && Advances(s, DeliverConsumed(m));
    }
  }

  /** When all wait, a reader knows of every writer in its round, and a writer has the answer of every
      reader that is ahead. */
  lemma QuietPair(c: Config, s: State, w: NodeInfo, r: NodeInfo)
    requires Inv(c, s) && Quiet(c, s) && w in c.writers && r in c.readers
    requires !DoomedPair(s, w, r) && !UnansweredPair(s, w, r)
    ensures || (s.w[w].round == s.r[r].round && w in s.r[r].pull.readyNodes)
            || (s.r[r].round == s.w[w].round + 1 && r in s.w[w].pull.consumedNodes)
  {
    assert PairFits(s, w, r) && WriterFits(c, s.w[w]) && ReaderFits(c, s.r[r]);
  }

  /** A waiting reader gets on exactly when it knows of all writers. */
  lemma WaitReturns(c: Config, s: State, r: NodeInfo)
    requires Typed(c, s) && r in c.readers && ReaderFits(c, s.r[r]) && Fresh(s.r[r])
    ensures Enabled(c, s, WaitReady(r)) <==> forall w | w in c.writers :: w in s.r[r].pull.readyNodes
  {
    if forall w | w in c.writers :: w in s.r[r].pull.readyNodes {
      assert s.r[r].pull.readyNodes == c.writers;
    } else if Enabled(c, s, WaitReady(r)) {
      SubsetCount(s.r[r].pull.readyNodes, c.writers);
    }
  }

  lemma LeaveReturns(c: Config, s: State, w: NodeInfo)
    requires Typed(c, s) && w in c.writers && WriterFits(c, s.w[w]) && s.w[w].phase.Awaiting?
    requires forall r | r in c.readers :: r in s.w[w].pull.consumedNodes
    ensures Enabled(c, s, LeaveWait(w))
  {
    assert s.w[w].pull.consumedNodes == c.readers;
  }

  /** No pair has lost a WeightReady or an answer. */
  ghost predicate NothingLost(c: Config, s: State) {
    forall w, r | w in c.writers && r in c.readers :: !DoomedPair(s, w, r) && !UnansweredPair(s, w, r)
  }

  lemma QuietReaderGoes(c: Config, s: State, r: NodeInfo)
    requires Inv(c, s) && Quiet(c, s) && NothingLost(c, s) && r in c.readers
    requires forall w | w in c.writers :: s.w[w].round == s.r[r].round
    ensures CanAdvance(c, s)
  {
    forall w | w in c.writers
      ensures w in s.r[r].pull.readyNodes
    {
      QuietPair(c, s, w, r);
    }
    assert ReaderFits(c, s.r[r]);
    WaitReturns(c, s, r);
    assert Enabled(c, s, WaitReady(r)) && Advances(s, WaitReady(r));
  }

  lemma QuietWriterGoes(c: Config, s: State, w: NodeInfo)
    requires Inv(c, s) && Quiet(c, s) && NothingLost(c, s) && w in c.writers
    requires forall r | r in c.readers :: s.r[r].round == s.w[w].round + 1
    ensures CanAdvance(c, s)
  {
    forall r | r in c.readers
      ensures r in s.w[w].pull.consumedNodes
    {
      QuietPair(c, s, w, r);
    }
    assert WriterFits(c, s.w[w]);
    LeaveReturns(c, s, w);
    assert Enabled(c, s, LeaveWait(w)) && Advances(s, LeaveWait(w));
  }

  /** Deadlock freedom: as long as nothing is lost, somebody can take a step that brings the round
      forward. */
  lemma NoDeadlock(c: Config, s: State)
    requires Inv(c, s) && NothingLost(c, s) && (c.writers != {} || c.readers != {})
    ensures CanAdvance(c, s)
  {
    if !Quiet(c, s) {
      OtherwiseMoves(c, s);
    } else if c.readers == {} {
      var w :| w in c.writers;
      QuietWriterGoes(c, s, w);
    } else {
      var r :| r in c.readers;
      if w :| w in c.writers && s.w[w].round != s.r[r].round {
        QuietPair(c, s, w, r);
        BehindGoes(c, s, r, w);
      } else {
        QuietReaderGoes(c, s, r);
      }
    }
  }

  /** Writer w is a round behind reader r: either all readers are ahead of w, or one that is not finds
      all writers in its round. */
  lemma BehindGoes(c: Config, s: State, r: NodeInfo, w: NodeInfo)
    requires Inv(c, s) && Quiet(c, s) && NothingLost(c, s) && w in c.writers && r in c.readers
    requires s.r[r].round == s.w[w].round + 1
    ensures CanAdvance(c, s)
  {
    if q :| q in c.readers && s.r[q].round != s.w[w].round + 1 {
      QuietPair(c, s, w, q);
      forall v | v in c.writers
        ensures s.w[v].round == s.r[q].round
      {
        QuietPair(c, s, v, r);
        QuietPair(c, s, v, q);
      }
      QuietReaderGoes(c, s, q);
    } else {
      QuietWriterGoes(c, s, w);
    }
  }

  // ---------- whole runs ----------

  /** A run with its steps. */
  ghost predicate IsTrace(c: Config, states: seq<State>, steps: seq<Step>) {
    && |states| == |steps| + 1 && states[0] == Init(c)
    && forall i | 0 <= i < |steps| :: Follows(c, states, steps, i)
  }

  /** Step i leads from state i to the next one. */
  predicate Follows(c: Config, states: seq<State>, steps: seq<Step>, i: int)
    requires |states| == |steps| + 1 && 0 <= i < |steps|
  {
    Typed(c, states[i]) && Enabled(c, states[i], steps[i]) && states[i + 1] == Apply(c, states[i], steps[i])
  }

  lemma TraceInv(c: Config, states: seq<State>, steps: seq<Step>, i: nat)
    requires IsTrace(c, states, steps) && i < |states|
    ensures Inv(c, states[i])
  {
    forall k, j | Neighbours(states, k, j)
      ensures Next(c, states[k], states[j])
    {
      assert Follows(c, states, steps, k);
    }
    RunInv(c, states, i);
  }

  lemma TracePrefix(c: Config, states: seq<State>, steps: seq<Step>)
    requires IsTrace(c, states, steps) && steps != []
    ensures IsTrace(c, states[..|steps|], steps[..|steps| - 1])
  {
    var before, first := states[..|steps|], steps[..|steps| - 1];
    forall i | 0 <= i < |first|
      ensures Follows(c, before, first, i)
    {
      assert Follows(c, states, steps, i);
    }
  }

  /** Step i of the trace loses the pair's WeightReady. */
  predicate LosesAt(states: seq<State>, steps: seq<Step>, i: int, w: NodeInfo, r: NodeInfo) {
    && 0 <= i < |steps| < |states| && w in states[i].w && r in states[i].r
    && LosesReady(states[i], steps[i], w, r)
  }

  /** Step i of the trace loses the reader's answer. */
  predicate DropsAt(states: seq<State>, steps: seq<Step>, i: int, w: NodeInfo, r: NodeInfo) {
    && 0 <= i < |steps| < |states| && w in states[i].w
    && steps[i] == LoseConsumed(Message(w, r, states[i].w[w].round))
  }

  /** The last step of a trace, for one pair. */
  lemma LastStep(c: Config, states: seq<State>, steps: seq<Step>, w: NodeInfo, r: NodeInfo)
    requires IsTrace(c, states, steps) && steps != [] && w in c.writers && r in c.readers
    ensures var n := |steps| - 1;
            && (DoomedPair(states[n + 1], w, r) <==> DoomedPair(states[n], w, r) || LosesAt(states, steps, n, w, r))
            && (UnansweredPair(states[n + 1], w, r) <==> UnansweredPair(states[n], w, r) || DropsAt(states, steps, n, w, r))
  {
    var n := |steps| - 1;
    TraceInv(c, states, steps, n);
    assert Follows(c, states, steps, n);
    DoomedExactly(c, states[n], steps[n], w, r);
    UnansweredExactly(c, states[n], steps[n], w, r);
  }

  lemma LosesBefore(states: seq<State>, steps: seq<Step>, before: seq<State>, first: seq<Step>, w: NodeInfo, r: NodeInfo)
    requires |states| == |steps| + 1 && steps != []
    requires before == states[..|steps|] && first == steps[..|steps| - 1]
    ensures (exists i :: LosesAt(states, steps, i, w, r)) <==>
            LosesAt(states, steps, |steps| - 1, w, r) || exists i :: LosesAt(before, first, i, w, r)
  {
    if i :| LosesAt(states, steps, i, w, r) && i < |first| {
      assert LosesAt(before, first, i, w, r);
    }
    if i :| LosesAt(before, first, i, w, r) {
      assert LosesAt(states, steps, i, w, r);
    }
  }

  lemma DropsBefore(states: seq<State>, steps: seq<Step>, before: seq<State>, first: seq<Step>, w: NodeInfo, r: NodeInfo)
    requires |states| == |steps| + 1 && steps != []
    requires before == states[..|steps|] && first == steps[..|steps| - 1]
    ensures (exists i :: DropsAt(states, steps, i, w, r)) <==>
            DropsAt(states, steps, |steps| - 1, w, r) || exists i :: DropsAt(before, first, i, w, r)
  {
    if i :| DropsAt(states, steps, i, w, r) && i < |first| {
      assert DropsAt(before, first, i, w, r);
    }
    if i :| DropsAt(before, first, i, w, r) {
      assert DropsAt(states, steps, i, w, r);
    }
  }

  /** In every run: a pair is doomed if and only if some step before lost its WeightReady, and an answer
      is missing if and only if some step lost it. */
  lemma {:induction false} LostInRun(c: Config, states: seq<State>, steps: seq<Step>, w: NodeInfo, r: NodeInfo)
    requires IsTrace(c, states, steps) && w in c.writers && r in c.readers
    ensures DoomedPair(states[|steps|], w, r) <==> exists i :: LosesAt(states, steps, i, w, r)
    ensures UnansweredPair(states[|steps|], w, r) <==> exists i :: DropsAt(states, steps, i, w, r)
  {
    if steps != [] {
      var before, first := states[..|steps|], steps[..|steps| - 1];
      TracePrefix(c, states, steps);
      LostInRun(c, before, first, w, r);
      LastStep(c, states, steps, w, r);
      LosesBefore(states, steps, before, first, w, r);
      DropsBefore(states, steps, before, first, w, r);
    }
  }

  /** A run in which no message is lost and no WeightReady overtakes the clearing of the round before
      never gets stuck: some step that brings the round forward is possible in the end. */
  lemma RunsGoOn(c: Config, states: seq<State>, steps: seq<Step>)
    requires IsTrace(c, states, steps) && (c.writers != {} || c.readers != {})
    requires forall i, w, r | w in c.writers && r in c.readers :: !LosesAt(states, steps, i, w, r)
    requires forall i, w, r | w in c.writers && r in c.readers :: !DropsAt(states, steps, i, w, r)
    ensures Typed(c, states[|steps|]) && CanAdvance(c, states[|steps|])
  {
    forall w, r | w in c.writers && r in c.readers
      ensures !DoomedPair(states[|steps|], w, r) && !UnansweredPair(states[|steps|], w, r)
    {
      LostInRun(c, states, steps, w, r);
    }
    TraceInv(c, states, steps, |steps|);
    NoDeadlock(c, states[|steps|]);
  }
}
