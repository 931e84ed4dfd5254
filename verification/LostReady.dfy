/** Progress of the pull protocol can be lost without losing a message: a reader sends WeightConsumed
    before it clears its ready nodes, so the WeightReady of the next round can arrive in between and
    be erased. The reader's wait then never returns, and neither does the writer's. Waits are meant
    without time-outs: the code reports a wait for ready nodes as failed after a while. */
module LostReady {
  import opened FiniteSets
  import opened NodeEntries
  import opened PullProtocol

  /** The writer has told the reader about the round both are in, the message is no longer on its way,
      and the reader, still to wait for this round, does not know. */
  predicate Stuck(W: Process, R: Process, w: NodeInfo, r: NodeInfo, inFlight: bool) {
    W.round == R.round && r in W.sentTo && !inFlight && Fresh(R) && w !in R.pull.readyNodes
  }

  predicate StuckPair(s: State, w: NodeInfo, r: NodeInfo) {
    w in s.w && r in s.r && Stuck(s.w[w], s.r[r], w, r, Message(w, r, s.w[w].round) in s.ready)
  }

  // ---------- stuck for ever ----------

  lemma WriterMoveStuck(c: Config, W: Process, R: Process, w: NodeInfo, r: NodeInfo, back: bool, step: Step)
    requires OfWriter(step) && WriterMay(c, W, step) && r in c.readers
    requires WriterFits(c, W) && ReaderFits(c, R) && PairOk(W, R, w, r, false, back) && Stuck(W, R, w, r, false)
    ensures Stuck(WriterMove(W, step), R, w, r, false) && WriterMove(W, step).round == W.round
    ensures step.SendReady? ==> step.r != r
  {
    if step.LeaveWait? {
      SubsetCount(W.pull.consumedNodes, c.readers);
    }
  }

  lemma ReaderMoveStuck(c: Config, W: Process, R: Process, w: NodeInfo, r: NodeInfo, step: Step)
    requires OfReader(step) && ReaderMay(c, R, step) && w in c.writers
    requires ReaderFits(c, R) && Stuck(W, R, w, r, false)
    ensures Stuck(W, ReaderMove(R, step), w, r, false)
  {
    if step.WaitReady? {
      SubsetCount(R.pull.readyNodes, c.writers);
    }
  }

  lemma StuckByWriter(c: Config, s: State, step: Step, w: NodeInfo, r: NodeInfo)
    requires Typed(c, s) && Enabled(c, s, step) && OfWriter(step) && w in c.writers && r in c.readers
    requires WriterFits(c, s.w[w]) && ReaderFits(c, s.r[r]) && PairFits(s, w, r) && StuckPair(s, w, r)
    ensures StuckPair(WriterStep(c, s, step), w, r) && WriterStep(c, s, step).w[w].round == s.w[w].round
  {
    var s', m := WriterStep(c, s, step), Message(w, r, s.w[w].round);
    if step.w == w {
      WriterMoveStuck(c, s.w[w], s.r[r], w, r, m in s.consumed, step);
      assert s'.w[w] == WriterMove(s.w[w], step) && m !in s'.ready;
    } else {
      assert s'.w[w] == s.w[w] && m !in s'.ready;
    }
  }

  lemma StuckByReader(c: Config, s: State, step: Step, w: NodeInfo, r: NodeInfo)
    requires Typed(c, s) && Enabled(c, s, step) && OfReader(step) && w in c.writers && r in c.readers
    requires ReaderFits(c, s.r[r]) && StuckPair(s, w, r)
    ensures StuckPair(ReaderStep(c, s, step), w, r)
  {
    if step.r == r {
      ReaderMoveStuck(c, s.w[w], s.r[r], w, r, step);
    }
  }

  lemma StuckByNet(c: Config, s: State, step: Step, w: NodeInfo, r: NodeInfo)
    requires Typed(c, s) && NetFits(c, s) && Enabled(c, s, step) && !OfWriter(step) && !OfReader(step)
    requires w in c.writers && r in c.readers && StuckPair(s, w, r)
    ensures StuckPair(NetStep(c, s, step), w, r) && NetStep(c, s, step).w[w].round == s.w[w].round
  {
  }

  /** No step of anybody gets a stuck pair going again. */
  lemma StuckStays(c: Config, s: State, step: Step, w: NodeInfo, r: NodeInfo)
    requires Inv(c, s) && Enabled(c, s, step) && w in c.writers && r in c.readers && StuckPair(s, w, r)
    ensures StuckPair(Apply(c, s, step), w, r) && Apply(c, s, step).w[w].round == s.w[w].round
  {
    assert PairFits(s, w, r) && WriterFits(c, s.w[w]) && ReaderFits(c, s.r[r]);
    if OfWriter(step) {
      StuckByWriter(c, s, step, w, r);
    } else if OfReader(step) {
      StuckByReader(c, s, step, w, r);
    } else {
      StuckByNet(c, s, step, w, r);
    }
  }

  lemma StuckNext(c: Config, s: State, s': State, w: NodeInfo, r: NodeInfo)
    requires Inv(c, s) && Next(c, s, s') && w in c.writers && r in c.readers && StuckPair(s, w, r)
    ensures StuckPair(s', w, r) && s'.w[w].round == s.w[w].round
  {
    var step :| Enabled(c, s, step) && s' == Apply(c, s, step);
    StuckStays(c, s, step, w, r);
  }

  lemma RunStep(c: Config, run: seq<State>, j: nat, s: State, s': State)
    requires IsRun(c, run) && 0 < j < |run| && s == run[j - 1] && s' == run[j]
    ensures Inv(c, s) && Next(c, s, s')
  {
    assert Neighbours(run, j - 1, j);
    RunInv(c, run, j - 1);
  }

  lemma StuckInRun(c: Config, run: seq<State>, j: nat, s: State, s': State, w: NodeInfo, r: NodeInfo)
    requires IsRun(c, run) && 0 < j < |run| && s == run[j - 1] && s' == run[j]
    requires w in c.writers && r in c.readers && StuckPair(s, w, r)
    ensures StuckPair(s', w, r) && s'.w[w].round == s.w[w].round
  {
    RunStep(c, run, j, s, s');
    StuckNext(c, s, s', w, r);
  }

  /** In every run, from a stuck state on, the reader never gets through its wait, and neither of the
      two ever reaches another round (however often a wait that timed out is repeated). */
  lemma {:induction false} StuckForEver(c: Config, run: seq<State>, i: nat, j: nat, w: NodeInfo, r: NodeInfo)
    requires IsRun(c, run) && i <= j < |run| && w in c.writers && r in c.readers && StuckPair(run[i], w, r)
    ensures StuckPair(run[j], w, r)
    ensures run[j].w[w].round == run[i].w[w].round && run[j].r[r].round == run[i].r[r].round
    decreases j
  {
    if i < j {
      StuckForEver(c, run, i, j - 1, w, r);
      StuckInRun(c, run, j, run[j - 1], run[j], w, r);
    }
  }
}
