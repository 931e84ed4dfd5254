/** What the reads of a run return, said by the steps of the run alone: who put what when. */
module ReadValues {
  import opened NodeEntries
  import opened PullProtocol
  import opened Progress

  /** The round the writer is in after these steps: how often it has finished Complete. */
  function WriterRound(steps: seq<Step>, w: NodeInfo): nat {
    if steps == [] then 0 else
      WriterRound(steps[..|steps| - 1], w) + (if steps[|steps| - 1] == WriterFinish(w) then 1 else 0)
  }

  function ReaderRound(steps: seq<Step>, r: NodeInfo): nat {
    if steps == [] then 0 else
      ReaderRound(steps[..|steps| - 1], r) + (if steps[|steps| - 1] == ReaderFinish(r) then 1 else 0)
  }

  /** The step puts the writer's tensor `key`. */
  predicate Puts(step: Step, w: NodeInfo, key: Key) {
    step.WriteCell? && step.w == w && step.key == key
  }

  predicate PutAt(steps: seq<Step>, j: int, w: NodeInfo, key: Key) {
    0 <= j < |steps| && Puts(steps[j], w, key)
  }

  /** It is the last of these steps that does. */
  predicate LastPut(steps: seq<Step>, j: int, w: NodeInfo, key: Key) {
    PutAt(steps, j, w, key) && forall k | j < k < |steps| :: !PutAt(steps, k, w, key)
  }

  // ---------- the memory of a writer ----------

  /** The cell that put j wrote: its payload, and the round it was made in. */
  function CellOf(steps: seq<Step>, j: int): Cell
    requires 0 <= j < |steps| && steps[j].WriteCell?
  {
    Cell(WriterRound(steps[..j], steps[j].w), steps[j].payload)
  }

  ghost predicate MemoryFits(c: Config, s: State, steps: seq<Step>, w: NodeInfo, key: Key) {
    && w in s.data && w in s.w && s.w[w].round == WriterRound(steps, w)
    && (key in s.data[w] <==> exists j :: PutAt(steps, j, w, key))
    && (forall j | LastPut(steps, j, w, key) :: key in s.data[w] && s.data[w][key] == CellOf(steps, j))
  }

  lemma LastPutNext(steps: seq<Step>, step: Step, w: NodeInfo, key: Key, j: int)
    ensures PutAt(steps + [step], j, w, key) <==>
            PutAt(steps, j, w, key) || (j == |steps| && Puts(step, w, key))
    ensures LastPut(steps + [step], j, w, key) <==>
            if Puts(step, w, key) then j == |steps| else LastPut(steps, j, w, key)
  {
    var more := steps + [step];
    assert more[|steps|] == step;
    assert forall k | 0 <= k < |steps| :: more[k] == steps[k];
    if Puts(step, w, key) {
      assert PutAt(more, |steps|, w, key);
    } else {
      assert !PutAt(more, |steps|, w, key);
      forall k
        ensures PutAt(more, k, w, key) <==> PutAt(steps, k, w, key)
      {
      }
    }
  }

  lemma MemoryNext(c: Config, s: State, steps: seq<Step>, step: Step, w: NodeInfo, key: Key)
    requires Typed(c, s) && Enabled(c, s, step) && w in c.writers && MemoryFits(c, s, steps, w, key)
    ensures MemoryFits(c, Apply(c, s, step), steps + [step], w, key)
  {
    var s', more := Apply(c, s, step), steps + [step];
    assert more[..|steps|] == steps && more[|steps|] == step;
    RoundNext(c, s, step, w);
    DataNext(c, s, step, w, key);
    forall j
      ensures PutAt(more, j, w, key) <==> PutAt(steps, j, w, key) || (j == |steps| && Puts(step, w, key))
      ensures LastPut(more, j, w, key) <==> if Puts(step, w, key) then j == |steps| else LastPut(steps, j, w, key)
    {
      LastPutNext(steps, step, w, key, j);
    }
    if Puts(step, w, key) {
      assert PutAt(more, |steps|, w, key);
    }
    forall j | LastPut(more, j, w, key)
      ensures key in s'.data[w] && s'.data[w][key] == CellOf(more, j)
    {
      assert j < |steps| ==> more[..j] == steps[..j];
    }
  }

  lemma WriterMoveRound(p: Process, step: Step)
    requires OfWriter(step)
    ensures WriterMove(p, step).round == p.round + (if step.WriterFinish? then 1 else 0)
  {
  }

  lemma RoundNext(c: Config, s: State, step: Step, w: NodeInfo)
    requires Typed(c, s) && Enabled(c, s, step) && w in c.writers
    ensures Apply(c, s, step).w[w].round == s.w[w].round + (if step == WriterFinish(w) then 1 else 0)
  {
    if OfWriter(step) {
      WriterMoveRound(s.w[step.w], step);
      assert Apply(c, s, step).w == s.w[step.w := WriterMove(s.w[step.w], step)];
    } else if !OfReader(step) {
      NetMovesNobody(c, s, step, w);
    }
  }

  lemma ReaderRoundNext(c: Config, s: State, step: Step, r: NodeInfo)
    requires Typed(c, s) && Enabled(c, s, step) && r in c.readers
    ensures Apply(c, s, step).r[r].round == s.r[r].round + (if step == ReaderFinish(r) then 1 else 0)
  {
    if !OfWriter(step) && !OfReader(step) {
      NetMovesNobody(c, s, step, r);
    }
  }

  lemma DataNext(c: Config, s: State, step: Step, w: NodeInfo, key: Key)
    requires Typed(c, s) && Enabled(c, s, step) && w in c.writers
    ensures !Puts(step, w, key) ==>
      && (key in Apply(c, s, step).data[w] <==> key in s.data[w])
      && (key in s.data[w] ==> Apply(c, s, step).data[w][key] == s.data[w][key])
    ensures Puts(step, w, key) ==>
      key in Apply(c, s, step).data[w] && Apply(c, s, step).data[w][key] == Cell(s.w[w].round, step.payload)
  {
  }

  /** After i steps the memory of a writer is what these put last. */
  lemma {:induction false} MemoryIsLastPut(c: Config, states: seq<State>, steps: seq<Step>, i: nat, w: NodeInfo, key: Key)
    requires IsTrace(c, states, steps) && i <= |steps| && w in c.writers
    ensures MemoryFits(c, states[i], steps[..i], w, key)
  {
    if i == 0 {
      assert steps[..0] == [];
    } else {
      MemoryIsLastPut(c, states, steps, i - 1, w, key);
      assert Follows(c, states, steps, i - 1);
      MemoryNext(c, states[i - 1], steps[..i - 1], steps[i - 1], w, key);
      assert steps[..i] == steps[..i - 1] + [steps[i - 1]];
    }
  }

  lemma {:induction false} ReaderRoundIs(c: Config, states: seq<State>, steps: seq<Step>, i: nat, r: NodeInfo)
    requires IsTrace(c, states, steps) && i <= |steps| && r in c.readers
    ensures r in states[i].r && states[i].r[r].round == ReaderRound(steps[..i], r)
  {
    if i == 0 {
      assert steps[..0] == [];
    } else {
      ReaderRoundIs(c, states, steps, i - 1, r);
      assert Follows(c, states, steps, i - 1);
      ReaderRoundNext(c, states[i - 1], steps[i - 1], r);
      assert steps[..i][..i - 1] == steps[..i - 1];
    }
  }

  // ---------- reads ----------

  /** What the log holds after these steps: one entry for every read, with the put it returns. */
  ghost predicate Logs(steps: seq<Step>, log: seq<Read>) {
    if steps == [] then log == [] else
      var n := |steps| - 1;
      if steps[n].Fetch? then
        && log != [] && Logs(steps[..n], log[..|log| - 1])
        && Returns(steps, n, log[|log| - 1])
      else Logs(steps[..n], log)
  }

  /** Read i of the run, by the steps: it returns the last put of its tensor before it. */
  ghost predicate Returns(steps: seq<Step>, i: nat, e: Read)
    requires i < |steps| && steps[i].Fetch?
  {
    && e.reader == steps[i].r && e.writer == steps[i].w && e.key == steps[i].key
    && e.round == ReaderRound(steps[..i], steps[i].r)
    && exists j :: LastPut(steps[..i], j, e.writer, e.key) && e.cell == CellOf(steps, j)
  }

  lemma LastPutExists(steps: seq<Step>, w: NodeInfo, key: Key, j: int) returns (k: int)
    requires PutAt(steps, j, w, key)
    ensures LastPut(steps, k, w, key)
    decreases |steps| - j
  {
    k := j;
    if i :| j < i < |steps| && PutAt(steps, i, w, key) {
      k := LastPutExists(steps, w, key, i);
    }
  }

  /** A read logs the payload of the last put of its tensor before it, and the round of that put. */
  lemma ReadReturns(c: Config, states: seq<State>, steps: seq<Step>, i: nat)
    requires IsTrace(c, states, steps) && i < |steps| && steps[i].Fetch?
    ensures |states[i + 1].log| == |states[i].log| + 1 && states[i + 1].log[..|states[i].log|] == states[i].log
    ensures Returns(steps, i, states[i + 1].log[|states[i].log|])
  {
    var r, w, key := steps[i].r, steps[i].w, steps[i].key;
    assert Follows(c, states, steps, i);
    MemoryIsLastPut(c, states, steps, i, w, key);
    ReaderRoundIs(c, states, steps, i, r);
    var j :| PutAt(steps[..i], j, w, key);
    var k := LastPutExists(steps[..i], w, key, j);
    assert steps[..i][..k] == steps[..k];
  }

  /** The log of a run is a function of its steps: all reads in order, each with the put it returns. */
  lemma {:induction false} LogIsReads(c: Config, states: seq<State>, steps: seq<Step>, i: nat)
    requires IsTrace(c, states, steps) && i <= |steps|
    ensures Logs(steps[..i], states[i].log)
  {
    if i > 0 {
      LogIsReads(c, states, steps, i - 1);
      assert Follows(c, states, steps, i - 1);
      assert steps[..i][..i - 1] == steps[..i - 1] && steps[..i][i - 1] == steps[i - 1];
      if steps[i - 1].Fetch? {
        ReadReturns(c, states, steps, i - 1);
        SameReturn(steps, i, states[i].log[|states[i].log| - 1]);
      } else {
        LogStays(c, states[i - 1], steps[i - 1]);
      }
    }
  }

  lemma SameReturn(steps: seq<Step>, i: nat, e: Read)
    requires 0 < i <= |steps| && steps[i - 1].Fetch? && Returns(steps, i - 1, e)
    ensures Returns(steps[..i], i - 1, e)
  {
    var j :| LastPut(steps[..i - 1], j, e.writer, e.key) && e.cell == CellOf(steps, j);
    assert steps[..i][..i - 1] == steps[..i - 1] && steps[..i][..j] == steps[..j];
    assert CellOf(steps[..i], j) == e.cell;
  }

  lemma LogStays(c: Config, s: State, step: Step)
    requires Typed(c, s) && Enabled(c, s, step) && !step.Fetch?
    ensures Apply(c, s, step).log == s.log
  {
  }

  // ---------- reads see the put of their own round ----------

  /** A writer that is inside Complete stays there until its round is over. */
  lemma {:induction false} StaysInside(c: Config, states: seq<State>, steps: seq<Step>, i: nat, j: nat, w: NodeInfo)
    requires IsTrace(c, states, steps) && i <= j <= |steps| && w in c.writers
    requires w in states[i].w && !states[i].w[w].phase.Working?
    ensures w in states[j].w && states[j].w[w].round >= states[i].w[w].round
    ensures states[j].w[w].round == states[i].w[w].round ==> !states[j].w[w].phase.Working?
    decreases j
  {
    if i < j {
      StaysInside(c, states, steps, i, j - 1, w);
      assert Follows(c, states, steps, j - 1);
      var s, step := states[j - 1], steps[j - 1];
      RoundNext(c, s, step, w);
      if s.w[w].round == states[i].w[w].round {
        InsideNext(c, s, step, w);
      }
    }
  }

  lemma InsideNext(c: Config, s: State, step: Step, w: NodeInfo)
    requires Typed(c, s) && Enabled(c, s, step) && w in c.writers && !s.w[w].phase.Working?
    ensures step != WriterFinish(w) ==> !Apply(c, s, step).w[w].phase.Working?
  {
    if !OfWriter(step) && !OfReader(step) {
      NetMovesNobody(c, s, step, w);
    }
  }

  /** All puts that a writer makes in the round of a read come before the read. */
  lemma PutsComeFirst(c: Config, states: seq<State>, steps: seq<Step>, i: nat, j: nat, key: Key)
    requires IsTrace(c, states, steps) && i < |steps| && steps[i].Fetch?
    requires PutAt(steps, j, steps[i].w, key)
    requires WriterRound(steps[..j], steps[i].w) <= ReaderRound(steps[..i], steps[i].r)
    ensures j < i
  {
    var r, w := steps[i].r, steps[i].w;
    assert Follows(c, states, steps, i) && Follows(c, states, steps, j);
    TraceInv(c, states, steps, i);
    FetchIsSafe(c, states[i], r, w, steps[i].key, w);
    MemoryIsLastPut(c, states, steps, i, w, key);
    MemoryIsLastPut(c, states, steps, j, w, key);
    ReaderRoundIs(c, states, steps, i, r);
    if i < j {
      StaysInside(c, states, steps, i, j, w);
    }
  }

  /** Freshness: a read in round k returns the last put of its tensor that its writer ever makes in
      rounds up to k. If the writer puts the tensor in round k at all, it is a put of round k. */
  lemma ReadIsCurrent(c: Config, states: seq<State>, steps: seq<Step>, i: nat, j: nat)
    requires IsTrace(c, states, steps) && i < |steps| && steps[i].Fetch?
    requires LastPut(steps[..i], j, steps[i].w, steps[i].key)
    ensures WriterRound(steps[..i], steps[i].w) == ReaderRound(steps[..i], steps[i].r)
    ensures WriterRound(steps[..j], steps[i].w) <= ReaderRound(steps[..i], steps[i].r)
    ensures forall k | PutAt(steps, k, steps[i].w, steps[i].key)
                       && WriterRound(steps[..k], steps[i].w) <= ReaderRound(steps[..i], steps[i].r) :: k <= j
    ensures (exists k :: PutAt(steps, k, steps[i].w, steps[i].key)
                         && WriterRound(steps[..k], steps[i].w) == ReaderRound(steps[..i], steps[i].r))
            ==> WriterRound(steps[..j], steps[i].w) == ReaderRound(steps[..i], steps[i].r)
  {
    var r, w, key := steps[i].r, steps[i].w, steps[i].key;
    assert Follows(c, states, steps, i);
    TraceInv(c, states, steps, i);
    FetchIsSafe(c, states[i], r, w, key, w);
    MemoryIsLastPut(c, states, steps, i, w, key);
    ReaderRoundIs(c, states, steps, i, r);
    RoundsGrow(steps, j, i, w);
    forall k | PutAt(steps, k, w, key) && WriterRound(steps[..k], w) <= ReaderRound(steps[..i], r)
      ensures k <= j && WriterRound(steps[..k], w) <= WriterRound(steps[..j], w)
    {
      PutsComeFirst(c, states, steps, i, k, key);
      assert PutAt(steps[..i], k, w, key);
      RoundsGrow(steps, k, j, w);
    }
  }

  lemma {:induction false} RoundsGrow(steps: seq<Step>, i: nat, j: nat, w: NodeInfo)
    requires i <= j <= |steps|
    ensures WriterRound(steps[..i], w) <= WriterRound(steps[..j], w)
    decreases j
  {
    if i < j {
      RoundsGrow(steps, i, j - 1, w);
      assert steps[..j][..j - 1] == steps[..j - 1];
    }
  }

  /** All reads of a tensor in one round return the same put, whoever makes them and when. */
  lemma ReadersAgree(c: Config, states: seq<State>, steps: seq<Step>, i: nat, i': nat, j: nat, j': nat)
    requires IsTrace(c, states, steps) && i < |steps| && i' < |steps| && steps[i].Fetch? && steps[i'].Fetch?
    requires steps[i].w == steps[i'].w && steps[i].key == steps[i'].key
    requires ReaderRound(steps[..i], steps[i].r) == ReaderRound(steps[..i'], steps[i'].r)
    requires LastPut(steps[..i], j, steps[i].w, steps[i].key) && LastPut(steps[..i'], j', steps[i].w, steps[i].key)
    ensures j == j'
  {
    ReadIsCurrent(c, states, steps, i, j);
    ReadIsCurrent(c, states, steps, i', j');
    assert PutAt(steps, j, steps[i].w, steps[i].key) && PutAt(steps, j', steps[i].w, steps[i].key);
  }
}
