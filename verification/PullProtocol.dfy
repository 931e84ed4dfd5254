/** The pull protocol as a transition system: any number of writers and readers run rounds of put,
    WeightReady, read, WeightConsumed and Complete. Control messages are delivered at most once, in
    any order, or lost; every step of a process may be interleaved with any other. */
module PullProtocol {
  import opened FiniteSets
  import opened NodeEntries
  import opened PullNode

  type Key = int

  /** A stored tensor: the round of the put that wrote it, and its contents. */
  datatype Cell = Cell(round: nat, payload: int)

  /** Where a process stands in its round. Complete runs from Sending to ReadyReset. */
  datatype Phase = Working | Sending | Awaiting | SeqReset | ReadyReset

  /** `waited`: a reader's wait for all ready nodes has returned in this round.
      `sentTo`: the peers the current Complete has sent its message to. */
  datatype Process = Process(pull: PullState, round: nat, phase: Phase, waited: bool, sentTo: set<NodeInfo>)

  /** A WeightReady (writer to reader) or WeightConsumed (reader to writer) in flight. */
  datatype Message = Message(writer: NodeInfo, reader: NodeInfo, round: nat)

  datatype Read = Read(reader: NodeInfo, round: nat, writer: NodeInfo, key: Key, cell: Cell)

  datatype Config = Config(writers: set<NodeInfo>, readers: set<NodeInfo>)

  /** `data` is the writers' registered memory. `published`, `puts` and `log` record history:
      a writer's memory when it entered Complete of a round, what was put when, and all reads. */
  datatype State = State(
    w: map<NodeInfo, Process>, r: map<NodeInfo, Process>,
    ready: set<Message>, consumed: set<Message>,
    data: map<NodeInfo, map<Key, Cell>>,
    published: map<(NodeInfo, nat), map<Key, Cell>>,
    puts: set<(NodeInfo, Key, nat)>,
    log: seq<Read>)

  const START: Process := Process(FRESH, 0, Working, false, {})

  function Init(c: Config): State {
    State(map n | n in c.writers :: START, map n | n in c.readers :: START, {}, {},
          map n | n in c.writers :: map[], map[], {}, [])
  }

  datatype Step =
    | WriteCell(w: NodeInfo, key: Key, payload: int)
    | BeginPut(w: NodeInfo)
    | BeginCompleteWrite(w: NodeInfo)
    | SendReady(w: NodeInfo, r: NodeInfo)
    | StartWait(w: NodeInfo)
    | LeaveWait(w: NodeInfo)
    | WriterClearReady(w: NodeInfo)
    | WriterFinish(w: NodeInfo)
    | BeginGet(r: NodeInfo)
    | WaitReady(r: NodeInfo)
    | Fetch(r: NodeInfo, w: NodeInfo, key: Key)
    | BeginCompleteRead(r: NodeInfo)
    | SendConsumed(r: NodeInfo, w: NodeInfo)
    | LeaveSend(r: NodeInfo)
    | ReaderClearReady(r: NodeInfo)
    | ReaderFinish(r: NodeInfo)
    | DeliverReady(msg: Message)
    | DeliverConsumed(msg: Message)
    | LoseReady(msg: Message)
    | LoseConsumed(msg: Message)

  predicate Typed(c: Config, s: State) {
    s.w.Keys == s.data.Keys == c.writers && s.r.Keys == c.readers
  }

  predicate OfWriter(step: Step) {
    step.WriteCell? || step.BeginPut? || step.BeginCompleteWrite? || step.SendReady? || step.StartWait?
    || step.LeaveWait? || step.WriterClearReady? || step.WriterFinish?
  }

  predicate OfReader(step: Step) {
    step.BeginGet? || step.WaitReady? || step.Fetch? || step.BeginCompleteRead? || step.SendConsumed?
    || step.LeaveSend? || step.ReaderClearReady? || step.ReaderFinish?
  }

  /** When a writer may take a step of its own. */
  predicate WriterMay(c: Config, p: Process, step: Step)
    requires OfWriter(step)
  {
    match step
    // the table copies into the registered buffer before it calls Put
    case WriteCell(_, _, _) => p.phase.Working?
    case BeginPut(_) => p.phase.Working?
    case BeginCompleteWrite(_) => p.phase.Working? && p.pull.writeOp
    case SendReady(_, r) => r in c.readers && p.phase.Sending? && r !in p.sentTo
    case StartWait(_) => p.phase.Sending? && p.sentTo == c.readers
    case LeaveWait(_) => p.phase.Awaiting? && |p.pull.consumedNodes| == |c.readers|
    case WriterClearReady(_) => p.phase.SeqReset?
    case WriterFinish(_) => p.phase.ReadyReset?
  }

  /** When a reader may take a step of its own. */
  predicate ReaderMay(c: Config, p: Process, step: Step)
    requires OfReader(step)
  {
    match step
    case BeginGet(_) => p.phase.Working?
    case WaitReady(_) => p.phase.Working? && |p.pull.readyNodes| == |c.writers|
    case Fetch(_, w, _) => w in c.writers && p.phase.Working? && p.waited && p.pull.readOp
    case BeginCompleteRead(_) => p.phase.Working? && p.waited && p.pull.readOp
    case SendConsumed(_, w) => w in c.writers && p.phase.Sending? && w !in p.sentTo
    case LeaveSend(_) => p.phase.Sending? && p.sentTo == c.writers
    case ReaderClearReady(_) => p.phase.SeqReset?
    case ReaderFinish(_) => p.phase.ReadyReset?
  }

  predicate Enabled(c: Config, s: State, step: Step)
    requires Typed(c, s)
  {
    if OfWriter(step) then step.w in c.writers && WriterMay(c, s.w[step.w], step)
    else if OfReader(step) then
      step.r in c.readers && ReaderMay(c, s.r[step.r], step) && (step.Fetch? ==> step.key in s.data[step.w])
    else
      match step
      case DeliverReady(msg) => msg in s.ready && msg.reader in c.readers
      case DeliverConsumed(msg) => msg in s.consumed && msg.writer in c.writers
      case LoseReady(msg) => msg in s.ready
      case LoseConsumed(msg) => msg in s.consumed
  }

  /** The next round of a process whose Complete is over. */
  function NextRound(p: Process): Process {
    Process(ClearConsumed(p.pull), p.round + 1, Working, false, {})
  }

  /** What a step of its own does to a writer. */
  function WriterMove(p: Process, step: Step): Process
    requires OfWriter(step)
  {
    match step
    case WriteCell(_, _, _) => p
    case BeginPut(_) => p.(pull := UpdateSeqId(p.pull, p.round).(writeOp := true))
    case BeginCompleteWrite(_) => p.(phase := Sending)
    case SendReady(_, r) => p.(sentTo := p.sentTo + {r})
    case StartWait(_) => p.(phase := Awaiting)
    case LeaveWait(_) => p.(phase := SeqReset, pull := ResetSeqId(p.pull))
    case WriterClearReady(_) => p.(phase := ReadyReset, pull := ClearReady(p.pull))
    case WriterFinish(_) => NextRound(p)
  }

  /** What a step of its own does to a reader. */
  function ReaderMove(p: Process, step: Step): Process
    requires OfReader(step)
  {
    match step
    case BeginGet(_) => p.(pull := UpdateSeqId(p.pull, p.round).(readOp := true))
    case WaitReady(_) => p.(waited := true)
    case Fetch(_, _, _) => p
    case BeginCompleteRead(_) => p.(phase := Sending)
    case SendConsumed(_, w) => p.(sentTo := p.sentTo + {w})
    case LeaveSend(_) => p.(phase := SeqReset, pull := ResetSeqId(p.pull))
    case ReaderClearReady(_) => p.(phase := ReadyReset, pull := ClearReady(p.pull))
    case ReaderFinish(_) => NextRound(p)
  }

  function PutW(s: State, w: NodeInfo, p: Process): State {
    s.(w := s.w[w := p])
  }

  function PutR(s: State, r: NodeInfo, p: Process): State {
    s.(r := s.r[r := p])
  }

  /** SendCtrlMessage sends only when the message's round is the current one. */
  function Send(net: set<Message>, m: Message, p: Process): set<Message> {
    if p.pull.currentSeqId == m.round then net + {m} else net
  }

  function WriterStep(c: Config, s: State, step: Step): (s': State)
    requires Typed(c, s) && Enabled(c, s, step) && OfWriter(step)
    ensures Typed(c, s') && s'.r == s.r && s'.consumed == s.consumed && s'.log == s.log
    ensures s'.w == s.w[step.w := WriterMove(s.w[step.w], step)]
    ensures !step.SendReady? ==> s'.ready == s.ready
    ensures !step.BeginCompleteWrite? ==> s'.published == s.published
    ensures !step.WriteCell? ==> s'.data == s.data && s'.puts == s.puts
  {
    var p := s.w[step.w];
    var s1 := PutW(s, step.w, WriterMove(p, step));
    match step
    case WriteCell(w, key, payload) =>
      s1.(data := s.data[w := s.data[w][key := Cell(p.round, payload)]], puts := s.puts + {(w, key, p.round)})
    case BeginCompleteWrite(w) => s1.(published := s.published[(w, p.round) := s.data[w]])
    case SendReady(w, r) => s1.(ready := Send(s.ready, Message(w, r, p.round), p))
    case _ => s1
  }

  function ReaderStep(c: Config, s: State, step: Step): (s': State)
    requires Typed(c, s) && Enabled(c, s, step) && OfReader(step)
    ensures Typed(c, s') && s'.w == s.w && s'.ready == s.ready
    ensures s'.data == s.data && s'.published == s.published && s'.puts == s.puts
    ensures s'.r == s.r[step.r := ReaderMove(s.r[step.r], step)]
    ensures !step.SendConsumed? ==> s'.consumed == s.consumed
    ensures !step.Fetch? ==> s'.log == s.log
  {
    var p := s.r[step.r];
    var s1 := PutR(s, step.r, ReaderMove(p, step));
    match step
    case Fetch(r, w, key) => s1.(log := s.log + [Read(r, p.round, w, key, s.data[w][key])])
    case SendConsumed(r, w) => s1.(consumed := Send(s.consumed, Message(w, r, p.round), p))
    case _ => s1
  }

  function NetStep(c: Config, s: State, step: Step): (s': State)
    requires Typed(c, s) && Enabled(c, s, step) && !OfWriter(step) && !OfReader(step)
    ensures Typed(c, s') && s'.ready <= s.ready && s'.consumed <= s.consumed
    ensures s'.data == s.data && s'.published == s.published && s'.puts == s.puts && s'.log == s.log
  {
    match step
    case DeliverReady(msg) =>
      PutR(s, msg.reader, s.r[msg.reader].(pull := OnWeightReady(s.r[msg.reader].pull, msg.writer)))
        .(ready := s.ready - {msg})
    case DeliverConsumed(msg) =>
      PutW(s, msg.writer, s.w[msg.writer].(pull := OnWeightConsumed(s.w[msg.writer].pull, msg.round, msg.reader)))
        .(consumed := s.consumed - {msg})
    case LoseReady(msg) => s.(ready := s.ready - {msg})
    case LoseConsumed(msg) => s.(consumed := s.consumed - {msg})
  }

  function Apply(c: Config, s: State, step: Step): (s': State)
    requires Typed(c, s) && Enabled(c, s, step)
    ensures Typed(c, s')
  {
    if OfWriter(step) then WriterStep(c, s, step)
    else if OfReader(step) then ReaderStep(c, s, step)
    else NetStep(c, s, step)
  }

  // ---------- the invariant ----------

  /** The sequence id a process shows in each phase. */
  predicate SeqIdFits(p: Process) {
    match p.phase
    case Working => p.pull.currentSeqId == INIT_SEQ_ID || p.pull.currentSeqId == p.round
    case Sending => p.pull.currentSeqId == p.round
    case Awaiting => p.pull.currentSeqId == p.round
    case SeqReset => p.pull.currentSeqId == INIT_SEQ_ID
    case ReadyReset => p.pull.currentSeqId == INIT_SEQ_ID
  }

  predicate WriterFits(c: Config, p: Process) {
    && SeqIdFits(p)
    && (p.phase.Working? && p.pull.writeOp ==> p.pull.currentSeqId == p.round)
    && (InReset(p) ==> !p.pull.writeOp)
    && p.pull.consumedNodes <= c.readers && p.sentTo <= c.readers
    && (p.phase.Working? ==> p.sentTo == {})
    && (p.phase.Awaiting? || InReset(p) ==> p.sentTo == c.readers)
  }

  predicate ReaderFits(c: Config, p: Process) {
    && SeqIdFits(p)
    && (p.phase.Working? && p.pull.readOp ==> p.pull.currentSeqId == p.round)
    && (InReset(p) ==> !p.pull.readOp)
    && !p.phase.Awaiting?
    && p.pull.readyNodes <= c.writers && p.sentTo <= c.writers
    && (p.phase.Working? ==> p.sentTo == {})
    && (InReset(p) ==> p.sentTo == c.writers)
    && (!p.phase.Working? ==> p.waited)
  }

  predicate InReset(p: Process) {
    p.phase.SeqReset? || p.phase.ReadyReset?
  }

  /** The reader still works on a round it has not waited for. */
  predicate Fresh(p: Process) {
    p.phase.Working? && !p.waited
  }

  /** How a writer (name w) and a reader (name r) stand to each other, given whether a WeightReady
      (`inFlight`) or a WeightConsumed (`back`) of the writer's round is on its way between them. */
  predicate PairOk(W: Process, R: Process, w: NodeInfo, r: NodeInfo, inFlight: bool, back: bool) {
    var told, answered := r in W.sentTo, w in R.sentTo;
    var counted, seen := r in W.pull.consumedNodes, w in R.pull.readyNodes;
    && (inFlight ==> told)
    && !(counted && back)
    && (InReset(W) ==> counted)
    && if W.round == R.round then
         // both in the same round
         && (seen && !InReset(R) ==> told && !inFlight)
         && (R.phase.ReadyReset? ==> !seen)
         && (R.waited ==> told && !inFlight)
         && (counted || back ==> answered)
       else if W.round == R.round + 1 then
         // the writer went ahead while the reader is still leaving its round
         && answered && !counted && !back
         && (R.phase.ReadyReset? && seen ==> told && !inFlight)
       else if R.round == W.round + 1 then
         // the reader went ahead while the writer still waits for others
         && Fresh(R) && !seen && told && !inFlight
       else false
  }

  predicate PairFits(s: State, w: NodeInfo, r: NodeInfo)
    requires w in s.w && r in s.r
  {
    PairOk(s.w[w], s.r[r], w, r, Message(w, r, s.w[w].round) in s.ready, Message(w, r, s.w[w].round) in s.consumed)
  }

  /** Messages in flight belong to the round their writer is in. */
  ghost predicate NetFits(c: Config, s: State)
    requires s.w.Keys == c.writers
  {
    forall m | m in s.ready || m in s.consumed ::
      m.writer in c.writers && m.reader in c.readers && m.round == s.w[m.writer].round
  }

  /** A writer's memory and its history. */
  ghost predicate HistoryFits(c: Config, s: State, w: NodeInfo)
    requires s.w.Keys == s.data.Keys == c.writers && w in c.writers
  {
    var p := s.w[w];
    && (!p.phase.Working? ==> (w, p.round) in s.published && s.published[(w, p.round)] == s.data[w])
    && (forall k | (w, k) in s.published :: k < p.round || (k == p.round && !p.phase.Working?))
    && (forall key | (w, key, p.round) in s.puts :: key in s.data[w] && s.data[w][key].round == p.round)
    && (forall k, key | (w, k) in s.published && (w, key, k) in s.puts ::
          key in s.published[(w, k)] && s.published[(w, k)][key].round == k)
    && (forall key, k | (w, key, k) in s.puts :: k <= p.round)
  }

  /** A logged read returned what its writer published for the round of the reader. */
  ghost predicate ReadFits(c: Config, s: State, e: Read) {
    && e.writer in c.writers
    && (e.writer, e.round) in s.published
    && e.key in s.published[(e.writer, e.round)]
    && e.cell == s.published[(e.writer, e.round)][e.key]
  }

  ghost predicate Inv(c: Config, s: State) {
    && Typed(c, s)
    && NetFits(c, s)
    && (forall w | w in c.writers :: WriterFits(c, s.w[w]) && HistoryFits(c, s, w))
    && (forall r | r in c.readers :: ReaderFits(c, s.r[r]))
    && (forall w, r | w in c.writers && r in c.readers :: PairFits(s, w, r))
    && (forall i | 0 <= i < |s.log| :: ReadFits(c, s, s.log[i]))
  }

  lemma InitInv(c: Config)
    ensures Inv(c, Init(c))
  {
  }

  // ---------- every step keeps the invariant ----------

  lemma PairKept(c: Config, s: State, step: Step, w: NodeInfo, r: NodeInfo)
    requires Inv(c, s) && Enabled(c, s, step) && w in c.writers && r in c.readers
    ensures PairFits(Apply(c, s, step), w, r)
  {
    assert PairFits(s, w, r);
    if OfWriter(step) {
      PairKeptByWriter(c, s, step, w, r);
    } else if OfReader(step) {
      PairKeptByReader(c, s, step, w, r);
    } else {
      PairKeptByNet(c, s, step, w, r);
    }
  }

  /** A writer's own step, seen by one reader: it adds at most the message to that reader, and when
      it enters the next round there is no message of it yet. */
  lemma WriterMovePair(c: Config, W: Process, R: Process, w: NodeInfo, r: NodeInfo, inFlight: bool, back: bool, step: Step)
    requires OfWriter(step) && WriterMay(c, W, step) && r in c.readers
    requires WriterFits(c, W) && ReaderFits(c, R) && PairOk(W, R, w, r, inFlight, back)
    ensures step.WriterFinish? ==> !inFlight && !back && PairOk(WriterMove(W, step), R, w, r, false, false)
    ensures !step.WriterFinish? ==>
              PairOk(WriterMove(W, step), R, w, r, inFlight || (step.SendReady? && step.r == r), back)
  {
    if step.LeaveWait? {
      SubsetCount(W.pull.consumedNodes, c.readers);
    }
  }

  lemma ReaderMovePair(c: Config, W: Process, R: Process, w: NodeInfo, r: NodeInfo, inFlight: bool, back: bool, step: Step)
    requires OfReader(step) && ReaderMay(c, R, step) && w in c.writers
    requires WriterFits(c, W) && ReaderFits(c, R) && PairOk(W, R, w, r, inFlight, back)
    ensures step.SendConsumed? && step.w == w ==> W.round == R.round
    ensures PairOk(W, ReaderMove(R, step), w, r, inFlight, back || (step.SendConsumed? && step.w == w))
  {
    if step.WaitReady? {
      SubsetCount(R.pull.readyNodes, c.writers);
    }
  }

  lemma PairKeptByWriter(c: Config, s: State, step: Step, w: NodeInfo, r: NodeInfo)
    requires Typed(c, s) && NetFits(c, s) && Enabled(c, s, step) && w in c.writers && r in c.readers
    requires WriterFits(c, s.w[w]) && ReaderFits(c, s.r[r]) && PairFits(s, w, r)
    requires OfWriter(step)
    ensures PairFits(WriterStep(c, s, step), w, r)
  {
    if step.w == w {
      var m := Message(w, r, s.w[w].round);
      WriterMovePair(c, s.w[w], s.r[r], w, r, m in s.ready, m in s.consumed, step);
    }
  }

  lemma PairKeptByReader(c: Config, s: State, step: Step, w: NodeInfo, r: NodeInfo)
    requires Typed(c, s) && NetFits(c, s) && Enabled(c, s, step) && w in c.writers && r in c.readers
    requires WriterFits(c, s.w[w]) && ReaderFits(c, s.r[r]) && PairFits(s, w, r)
    requires OfReader(step)
    ensures PairFits(ReaderStep(c, s, step), w, r)
  {
    var s', m := ReaderStep(c, s, step), Message(w, r, s.w[w].round);
    if step.r == r {
      ReaderMovePair(c, s.w[w], s.r[r], w, r, m in s.ready, m in s.consumed, step);
      assert s'.r[r] == ReaderMove(s.r[r], step);
      assert m in s'.consumed <==> m in s.consumed || (step.SendConsumed? && step.w == w);
    } else {
      assert s'.r[r] == s.r[r] && (m in s'.consumed <==> m in s.consumed);
    }
  }

  lemma PairKeptByNet(c: Config, s: State, step: Step, w: NodeInfo, r: NodeInfo)
    requires Typed(c, s) && NetFits(c, s) && Enabled(c, s, step) && w in c.writers && r in c.readers
    requires WriterFits(c, s.w[w]) && ReaderFits(c, s.r[r]) && PairFits(s, w, r)
    requires !OfWriter(step) && !OfReader(step)
    ensures PairFits(NetStep(c, s, step), w, r)
  {
  }

  lemma WriterMoveFits(c: Config, p: Process, step: Step)
    requires OfWriter(step) && WriterMay(c, p, step) && WriterFits(c, p)
    ensures WriterFits(c, WriterMove(p, step))
  {
  }

  lemma WriterKeptByNet(c: Config, s: State, step: Step, w: NodeInfo)
    requires Typed(c, s) && NetFits(c, s) && Enabled(c, s, step) && !OfWriter(step) && !OfReader(step)
    requires w in c.writers && WriterFits(c, s.w[w])
    ensures WriterFits(c, NetStep(c, s, step).w[w])
  {
  }

  /** Deliveries change nobody's phase or round. */
  lemma NetMovesNobody(c: Config, s: State, step: Step, n: NodeInfo)
    requires Typed(c, s) && Enabled(c, s, step) && !OfWriter(step) && !OfReader(step)
    ensures var s' := NetStep(c, s, step);
            && (n in c.writers ==> s'.w[n].phase == s.w[n].phase && s'.w[n].round == s.w[n].round)
            && (n in c.readers ==> s'.r[n].phase == s.r[n].phase && s'.r[n].round == s.r[n].round)
  {
  }

  lemma WriterKept(c: Config, s: State, step: Step, w: NodeInfo)
    requires Typed(c, s) && NetFits(c, s) && Enabled(c, s, step) && w in c.writers && WriterFits(c, s.w[w])
    ensures WriterFits(c, Apply(c, s, step).w[w])
  {
    if OfWriter(step) {
      if step.w == w {
        WriterMoveFits(c, s.w[w], step);
      }
    } else if !OfReader(step) {
      WriterKeptByNet(c, s, step, w);
    }
  }

  lemma ReaderMoveFits(c: Config, p: Process, step: Step)
    requires OfReader(step) && ReaderMay(c, p, step) && ReaderFits(c, p)
    ensures ReaderFits(c, ReaderMove(p, step))
  {
  }

  lemma ReaderKeptByNet(c: Config, s: State, step: Step, r: NodeInfo)
    requires Typed(c, s) && NetFits(c, s) && Enabled(c, s, step) && !OfWriter(step) && !OfReader(step)
    requires r in c.readers && ReaderFits(c, s.r[r])
    ensures ReaderFits(c, NetStep(c, s, step).r[r])
  {
  }

  lemma ReaderKeptByReader(c: Config, s: State, step: Step, r: NodeInfo)
    requires Typed(c, s) && Enabled(c, s, step) && OfReader(step) && r in c.readers && ReaderFits(c, s.r[r])
    ensures ReaderFits(c, ReaderStep(c, s, step).r[r])
  {
    if step.r == r {
      ReaderMoveFits(c, s.r[r], step);
    }
  }

  lemma ReaderKept(c: Config, s: State, step: Step, r: NodeInfo)
    requires Typed(c, s) && NetFits(c, s) && Enabled(c, s, step) && r in c.readers && ReaderFits(c, s.r[r])
    ensures ReaderFits(c, Apply(c, s, step).r[r])
  {
    if OfReader(step) {
      ReaderKeptByReader(c, s, step, r);
    } else if !OfWriter(step) {
      ReaderKeptByNet(c, s, step, r);
    }
  }

  /** A writer enters its next round only when no message of the old one is left. */
  lemma NoMessageLeft(c: Config, s: State, w: NodeInfo, r: NodeInfo)
    requires Inv(c, s) && w in c.writers && r in c.readers && s.w[w].phase.ReadyReset?
    ensures Message(w, r, s.w[w].round) !in s.ready && Message(w, r, s.w[w].round) !in s.consumed
  {
    assert PairFits(s, w, r) && ReaderFits(c, s.r[r]);
  }

  /** A reader answers only writers that are in its round. */
  lemma AnswersSameRound(c: Config, s: State, r: NodeInfo, w: NodeInfo)
    requires Inv(c, s) && Enabled(c, s, SendConsumed(r, w))
    ensures s.w[w].round == s.r[r].round
  {
    assert PairFits(s, w, r) && ReaderFits(c, s.r[r]);
  }

  lemma NetKeptByWriter(c: Config, s: State, step: Step)
    requires Typed(c, s) && NetFits(c, s) && Enabled(c, s, step) && OfWriter(step)
    requires step.WriterFinish? ==> forall m | m in s.ready || m in s.consumed :: m.writer != step.w
    ensures NetFits(c, WriterStep(c, s, step))
  {
  }

  lemma NetKeptByReader(c: Config, s: State, step: Step)
    requires Typed(c, s) && NetFits(c, s) && Enabled(c, s, step) && OfReader(step)
    requires step.SendConsumed? ==> s.w[step.w].round == s.r[step.r].round
    ensures NetFits(c, ReaderStep(c, s, step))
  {
  }

  lemma NetKeptByNet(c: Config, s: State, step: Step)
    requires Typed(c, s) && NetFits(c, s) && Enabled(c, s, step) && !OfWriter(step) && !OfReader(step)
    ensures NetFits(c, NetStep(c, s, step))
  {
  }

  lemma HistoryKeptByPut(c: Config, s: State, step: Step, w: NodeInfo)
    requires Typed(c, s) && Enabled(c, s, step) && step.WriteCell? && w in c.writers && HistoryFits(c, s, w)
    ensures HistoryFits(c, WriterStep(c, s, step), w)
  {
  }

  lemma HistoryKeptByPublish(c: Config, s: State, step: Step, w: NodeInfo)
    requires Typed(c, s) && Enabled(c, s, step) && step.BeginCompleteWrite? && w in c.writers && HistoryFits(c, s, w)
    ensures HistoryFits(c, WriterStep(c, s, step), w)
  {
  }

  /** A step of a writer that leaves its memory alone: it stays Working, stays inside Complete, or
      starts a round in which it has put nothing yet. */
  lemma HistoryKeptByMove(c: Config, s: State, s': State, w: NodeInfo)
    requires Typed(c, s) && Typed(c, s') && w in c.writers && HistoryFits(c, s, w)
    requires s'.data == s.data && s'.published == s.published && s'.puts == s.puts
    requires var p, p' := s.w[w], s'.w[w];
             || (p'.round == p.round && (p'.phase.Working? <==> p.phase.Working?))
             || (p'.round == p.round + 1 && !p.phase.Working? && p'.phase.Working?)
    ensures HistoryFits(c, s', w)
  {
  }

  lemma HistoryKept(c: Config, s: State, step: Step, w: NodeInfo)
    requires Typed(c, s) && Enabled(c, s, step) && w in c.writers && HistoryFits(c, s, w)
    ensures HistoryFits(c, Apply(c, s, step), w)
  {
    if step.WriteCell? {
      HistoryKeptByPut(c, s, step, w);
    } else if step.BeginCompleteWrite? {
      HistoryKeptByPublish(c, s, step, w);
    } else {
      if !OfWriter(step) && !OfReader(step) {
        NetMovesNobody(c, s, step, w);
      }
      HistoryKeptByMove(c, s, Apply(c, s, step), w);
    }
  }

  /** Whenever a reader fetches in its round, every writer has put its data of that round, has sent
      WeightReady for it to this reader, and is still inside Complete: its memory is what it
      published for the round. */
  lemma FetchIsSafe(c: Config, s: State, r: NodeInfo, from: NodeInfo, key: Key, w: NodeInfo)
    requires Inv(c, s) && Enabled(c, s, Fetch(r, from, key)) && w in c.writers
    ensures s.w[w].round == s.r[r].round
    ensures s.w[w].phase.Sending? || s.w[w].phase.Awaiting?
    ensures r in s.w[w].sentTo
    ensures (w, s.r[r].round) in s.published && s.data[w] == s.published[(w, s.r[r].round)]
  {
    assert PairFits(s, w, r) && WriterFits(c, s.w[w]) && ReaderFits(c, s.r[r]) && HistoryFits(c, s, w);
  }

  /** Only BeginCompleteWrite adds to what is published, and never to a round already there. */
  lemma PublishedKept(c: Config, s: State, step: Step, e: Read)
    requires Typed(c, s) && Enabled(c, s, step) && OfWriter(step) && HistoryFits(c, s, step.w) && ReadFits(c, s, e)
    ensures ReadFits(c, WriterStep(c, s, step), e)
  {
  }

  lemma FetchLogged(c: Config, s: State, step: Step, i: nat)
    requires Inv(c, s) && Enabled(c, s, step) && OfReader(step) && i < |ReaderStep(c, s, step).log|
    ensures ReadFits(c, ReaderStep(c, s, step), ReaderStep(c, s, step).log[i])
  {
    if i < |s.log| {
      assert ReadFits(c, s, s.log[i]);
    } else {
      FetchIsSafe(c, s, step.r, step.w, step.key, step.w);
    }
  }

  lemma ReadKept(c: Config, s: State, step: Step, i: nat)
    requires Inv(c, s) && Enabled(c, s, step) && i < |Apply(c, s, step).log|
    ensures ReadFits(c, Apply(c, s, step), Apply(c, s, step).log[i])
  {
    if OfWriter(step) {
      PublishedKept(c, s, step, s.log[i]);
    } else if OfReader(step) {
      FetchLogged(c, s, step, i);
    } else {
      assert ReadFits(c, s, s.log[i]);
    }
  }

  lemma WritersKept(c: Config, s: State, step: Step)
    requires Inv(c, s) && Enabled(c, s, step)
    ensures Typed(c, Apply(c, s, step))
    ensures forall w | w in c.writers :: WriterFits(c, Apply(c, s, step).w[w])
  {
    forall w | w in c.writers
      ensures WriterFits(c, Apply(c, s, step).w[w])
    {
      WriterKept(c, s, step, w);
    }
  }

  lemma HistoriesKept(c: Config, s: State, step: Step)
    requires Inv(c, s) && Enabled(c, s, step)
    ensures forall w | w in c.writers :: HistoryFits(c, Apply(c, s, step), w)
  {
    forall w | w in c.writers
      ensures HistoryFits(c, Apply(c, s, step), w)
    {
      HistoryKept(c, s, step, w);
    }
  }

  lemma ReadersKept(c: Config, s: State, step: Step)
    requires Inv(c, s) && Enabled(c, s, step)
    ensures forall r | r in c.readers :: ReaderFits(c, Apply(c, s, step).r[r])
  {
    forall r | r in c.readers
      ensures ReaderFits(c, Apply(c, s, step).r[r])
    {
      ReaderKept(c, s, step, r);
    }
  }

  lemma PairsKept(c: Config, s: State, step: Step)
    requires Inv(c, s) && Enabled(c, s, step)
    ensures forall w, r | w in c.writers && r in c.readers :: PairFits(Apply(c, s, step), w, r)
  {
    forall w, r | w in c.writers && r in c.readers
      ensures PairFits(Apply(c, s, step), w, r)
    {
      PairKept(c, s, step, w, r);
    }
  }

  lemma NetworkKept(c: Config, s: State, step: Step)
    requires Inv(c, s) && Enabled(c, s, step)
    ensures NetFits(c, Apply(c, s, step))
  {
    if OfWriter(step) {
      if step.WriterFinish? {
        forall m | (m in s.ready || m in s.consumed)
          ensures m.writer != step.w
        {
          if m.writer == step.w {
            assert m == Message(step.w, m.reader, s.w[step.w].round);
            NoMessageLeft(c, s, step.w, m.reader);
          }
        }
      }
      NetKeptByWriter(c, s, step);
    } else if OfReader(step) {
      if step.SendConsumed? {
        AnswersSameRound(c, s, step.r, step.w);
      }
      NetKeptByReader(c, s, step);
    } else {
      NetKeptByNet(c, s, step);
    }
  }

  lemma LogKept(c: Config, s: State, step: Step)
    requires Inv(c, s) && Enabled(c, s, step)
    ensures forall i | 0 <= i < |Apply(c, s, step).log| :: ReadFits(c, Apply(c, s, step), Apply(c, s, step).log[i])
  {
    forall i | 0 <= i < |Apply(c, s, step).log|
      ensures ReadFits(c, Apply(c, s, step), Apply(c, s, step).log[i])
    {
      ReadKept(c, s, step, i);
    }
  }

  /** The invariant is inductive. */
  lemma StepInv(c: Config, s: State, step: Step)
    requires Inv(c, s) && Enabled(c, s, step)
    ensures Inv(c, Apply(c, s, step))
  {
    WritersKept(c, s, step);
    HistoriesKept(c, s, step);
    ReadersKept(c, s, step);
    PairsKept(c, s, step);
    NetworkKept(c, s, step);
    LogKept(c, s, step);
  }

  // ---------- whole runs ----------

  ghost predicate Next(c: Config, s: State, s': State) {
    && Typed(c, s)
    && exists step :: Enabled(c, s, step) && s' == Apply(c, s, step)
  }

  predicate Neighbours(run: seq<State>, i: int, j: int) {
    0 <= i < |run| && 0 <= j < |run| && j == i + 1
  }

  /** Starts at Init, and every state follows from the one before by some step. */
  ghost predicate IsRun(c: Config, run: seq<State>) {
    && run != [] && run[0] == Init(c)
    && forall i, j {:trigger Neighbours(run, i, j)} | Neighbours(run, i, j) :: Next(c, run[i], run[j])
  }

  lemma {:induction false} RunInv(c: Config, run: seq<State>, i: nat)
    requires IsRun(c, run) && i < |run|
    ensures Inv(c, run[i])
  {
    if i == 0 {
      InitInv(c);
    } else {
      RunInv(c, run, i - 1);
      assert Neighbours(run, i - 1, i);
      var step :| Enabled(c, run[i - 1], step) && run[i] == Apply(c, run[i - 1], step);
      StepInv(c, run[i - 1], step);
    }
  }

  /** Protocol safety: in every run, every read of round k returned what its writer published for
      round k (so all reads of a round agree, whoever made them and when), and a tensor put in
      round k is read in its version k. */
  lemma ReadsAreConsistent(c: Config, run: seq<State>, i: nat, e: Read)
    requires IsRun(c, run) && i < |run| && e in run[i].log
    ensures (e.writer, e.round) in run[i].published
    ensures e.key in run[i].published[(e.writer, e.round)]
    ensures e.cell == run[i].published[(e.writer, e.round)][e.key]
    ensures (e.writer, e.key, e.round) in run[i].puts ==> e.cell.round == e.round
  {
    RunInv(c, run, i);
    var k :| 0 <= k < |run[i].log| && run[i].log[k] == e;
    assert ReadFits(c, run[i], run[i].log[k]);
    assert HistoryFits(c, run[i], e.writer);
  }

  /** The rounds of any writer and any reader differ by at most one, in every state of every run. */
  lemma RoundsStayClose(c: Config, run: seq<State>, i: nat, w: NodeInfo, r: NodeInfo)
    requires IsRun(c, run) && i < |run| && w in c.writers && r in c.readers
    ensures w in run[i].w && r in run[i].r
    ensures -1 <= run[i].w[w].round - run[i].r[r].round <= 1
  {
    RunInv(c, run, i);
    assert PairFits(run[i], w, r);
  }

  /** Hence so do the rounds of two writers, as long as there is a reader. */
  lemma WritersStayClose(c: Config, run: seq<State>, i: nat, v: NodeInfo, w: NodeInfo)
    requires IsRun(c, run) && i < |run| && v in c.writers && w in c.writers && c.readers != {}
    ensures v in run[i].w && w in run[i].w
    ensures -1 <= run[i].w[v].round - run[i].w[w].round <= 1
  {
    RunInv(c, run, i);
    var r :| r in c.readers;
    assert PairFits(run[i], v, r) && PairFits(run[i], w, r) && ReaderFits(c, run[i].r[r]);
  }

  /** The reader has made all its reads of round k. */
  predicate DoneReading(p: Process, k: nat) {
    p.round > k || (p.round == k && !p.phase.Working?)
  }

  /** A writer leaves the wait of round k only after every reader has finished its reads of round k. */
  lemma WriterLeavesLast(c: Config, run: seq<State>, i: nat, w: NodeInfo, r: NodeInfo, k: nat)
    requires IsRun(c, run) && i < |run| && w in c.writers && r in c.readers
    requires w in run[i].w && (run[i].w[w].round > k || (run[i].w[w].round == k && InReset(run[i].w[w])))
    ensures r in run[i].r && DoneReading(run[i].r[r], k)
  {
    RunInv(c, run, i);
    assert PairFits(run[i], w, r) && ReaderFits(c, run[i].r[r]);
  }

  lemma DoneMove(c: Config, p: Process, step: Step, k: nat)
    requires OfReader(step) && ReaderMay(c, p, step) && DoneReading(p, k)
    ensures DoneReading(ReaderMove(p, step), k) && (step.Fetch? ==> p.round > k)
  {
  }

  /** A reader that is done with round k never reads in it again. */
  lemma DoneStaysDone(c: Config, s: State, step: Step, r: NodeInfo, k: nat)
    requires Typed(c, s) && Enabled(c, s, step) && r in c.readers && DoneReading(s.r[r], k)
    ensures DoneReading(Apply(c, s, step).r[r], k)
    ensures step.Fetch? && step.r == r ==> s.r[r].round > k
  {
    if OfReader(step) {
      if step.r == r {
        DoneMove(c, s.r[r], step, k);
      }
    } else if !OfWriter(step) {
      NetMovesNobody(c, s, step, r);
    }
  }

  /** A WeightConsumed that arrives belongs to the round its writer is completing: it is neither
      rejected as outdated nor credited to another round. */
  lemma ConsumedIsCredited(c: Config, run: seq<State>, i: nat, m: Message)
    requires IsRun(c, run) && i < |run| && m in run[i].consumed
    ensures m.writer in run[i].w && m.reader in run[i].r
    ensures var W := run[i].w[m.writer];
            && m.round == W.round == W.pull.currentSeqId
            && (W.phase.Sending? || W.phase.Awaiting?)
            && DoneReading(run[i].r[m.reader], m.round)
            && m.reader !in W.pull.consumedNodes
            && m.reader in OnWeightConsumed(W.pull, m.round, m.reader).consumedNodes
  {
    RunInv(c, run, i);
    var W := run[i].w[m.writer];
    assert PairFits(run[i], m.writer, m.reader);
    assert WriterFits(c, W) && ReaderFits(c, run[i].r[m.reader]);
  }
}
