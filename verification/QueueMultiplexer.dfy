/** The queue multiplexer: one thread per channel tags messages on their way to a shared
    processor, one thread routes the replies back by tag, while channels are being added
    in four separate steps. Safety in every interleaving. */
module QueueMultiplexer {
  import opened MessageQueue

  /** `id` names the message; `origin` is the channel whose input queue it came from;
      `channel` is the tag field the multiplexer writes and reads. */
  datatype Msg = Msg(id: nat, origin: nat, channel: int)

  datatype MuxPc = Waiting | Dequeued(m: Msg) | Tagged(m: Msg)

  /** A mux thread with the queue index and the channel number it was started with. */
  datatype MuxThread = MuxThread(inQueue: nat, channel: nat, pc: MuxPc)

  datatype AdderPc = Ready | PushedIn | PushedOut | Spawned

  datatype DemuxPc = DemuxWaiting | DemuxHolding(m: Msg)

  /** All queues in arrival order. `capacity` is the configured maximum of each queue. */
  datatype State = State(
    capacity: nat,
    rightIn: seq<seq<Msg>>,
    rightOut: seq<seq<Msg>>,
    numChannels: nat,
    adder: AdderPc,
    mux: seq<MuxThread>,
    leftOut: seq<Msg>,
    processing: seq<Msg>,
    leftIn: seq<Msg>,
    demux: DemuxPc,
    delivered: seq<seq<Msg>>,
    rejected: seq<Msg>,
    invalid: seq<Msg>,
    injected: set<nat>)

  datatype Action =
    | AddChannelStep
    | Inject(queue: nat, id: nat, junk: int)
    | MuxTake(thread: nat)
    | MuxTag(thread: nat)
    | MuxSend(thread: nat)
    | ProcessorTake
    | ProcessorReply(which: nat)
    | DemuxTake
    | DemuxRoute
    | Consume(channel: nat)

  predicate PassesCheck(s: State, c: int) {
    !(c < 0 || c > s.numChannels)
  }

  predicate Enabled(s: State, a: Action) {
    match a
    case AddChannelStep => true
    case Inject(i, id, _) => i < |s.rightIn| && id !in s.injected
    case MuxTake(k) =>
      k < |s.mux| && s.mux[k].pc.Waiting? &&
      s.mux[k].inQueue < |s.rightIn| && s.rightIn[s.mux[k].inQueue] != []
    case MuxTag(k) => k < |s.mux| && s.mux[k].pc.Dequeued?
    case MuxSend(k) => k < |s.mux| && s.mux[k].pc.Tagged?
    case ProcessorTake => s.leftOut != []
    case ProcessorReply(j) => j < |s.processing|
    case DemuxTake => s.demux.DemuxWaiting? && s.leftIn != []
    case DemuxRoute => s.demux.DemuxHolding?
    case Consume(c) => c < |s.rightOut| && s.rightOut[c] != [] && c < |s.delivered|
  }

  function AddChannel(s: State): State {
    match s.adder
    case Ready => s.(rightIn := s.rightIn + [[]], adder := PushedIn)
    case PushedIn =>
      s.(rightOut := s.rightOut + [[]], delivered := s.delivered + [[]], adder := PushedOut)
    case PushedOut =>
      var queue := if |s.rightIn| > 0 then |s.rightIn| - 1 else 0;
      s.(mux := s.mux + [MuxThread(queue, s.numChannels, Waiting)], adder := Spawned)
    case Spawned => s.(numChannels := s.numChannels + 1, adder := Ready)
  }

  /** Whether demux would index the vector of output queues past its end. */
  predicate RoutesPastEnd(s: State, a: Action) {
    a.DemuxRoute? && s.demux.DemuxHolding? &&
    PassesCheck(s, s.demux.m.channel) && s.demux.m.channel >= |s.rightOut|
  }

  function Route(s: State, m: Msg): State
    requires PassesCheck(s, m.channel) ==> m.channel < |s.rightOut|
  {
    var s' := s.(demux := DemuxWaiting);
    if !PassesCheck(s, m.channel) then s'.(invalid := s.invalid + [m])
    else
      var c := m.channel;
      if Accepts(|s.rightOut[c]|, s.capacity)
      then s'.(rightOut := s.rightOut[c := s.rightOut[c] + [m]])
      else s'.(rejected := s.rejected + [m])
  }

  function Apply(s: State, a: Action): State
    requires Enabled(s, a) && !RoutesPastEnd(s, a)
  {
    match a
    case AddChannelStep => AddChannel(s)
    case Inject(i, id, junk) =>
      var m := Msg(id, i, junk);
      var s' := s.(injected := s.injected + {id});
      if Accepts(|s.rightIn[i]|, s.capacity)
      then s'.(rightIn := s.rightIn[i := s.rightIn[i] + [m]])
      else s'.(rejected := s.rejected + [m])
    case MuxTake(k) =>
      var th := s.mux[k];
      var q := s.rightIn[th.inQueue];
      s.(rightIn := s.rightIn[th.inQueue := q[1..]],
         mux := s.mux[k := th.(pc := Dequeued(q[0]))])
    case MuxTag(k) =>
      var th := s.mux[k];
      s.(mux := s.mux[k := th.(pc := Tagged(th.pc.m.(channel := th.channel)))])
    case MuxSend(k) =>
      var th := s.mux[k];
      var s' := s.(mux := s.mux[k := th.(pc := Waiting)]);
      if Accepts(|s.leftOut|, s.capacity)
      then s'.(leftOut := s.leftOut + [th.pc.m])
      else s'.(rejected := s.rejected + [th.pc.m])
    case ProcessorTake =>
      s.(leftOut := s.leftOut[1..], processing := s.processing + [s.leftOut[0]])
    case ProcessorReply(j) =>
      var m := s.processing[j];
      var s' := s.(processing := s.processing[..j] + s.processing[j+1..]);
      if Accepts(|s.leftIn|, s.capacity)
      then s'.(leftIn := s.leftIn + [m])
      else s'.(rejected := s.rejected + [m])
    case DemuxTake =>
      s.(leftIn := s.leftIn[1..], demux := DemuxHolding(s.leftIn[0]))
    case DemuxRoute => Route(s, s.demux.m)
    case Consume(c) =>
      var q := s.rightOut[c];
      s.(rightOut := s.rightOut[c := q[1..]], delivered := s.delivered[c := s.delivered[c] + [q[0]]])
  }

  function Init(capacity: nat): State {
    State(capacity, [], [], 0, Ready, [], [], [], [], DemuxWaiting, [], [], [], {})
  }

  // ---- Channel invariant ----

  ghost predicate Structure(s: State) {
    && (forall k :: 0 <= k < |s.mux| ==> s.mux[k].channel == k && s.mux[k].inQueue == k)
    && |s.delivered| == |s.rightOut|
    && |s.rightIn| == s.numChannels + (if s.adder.Ready? then 0 else 1)
    && |s.rightOut| == s.numChannels + (if s.adder.Ready? || s.adder.PushedIn? then 0 else 1)
    && |s.mux| == s.numChannels + (if s.adder.Spawned? then 1 else 0)
  }

  /** A tag written by one of `threads` mux threads: it names the channel the message
      came from. */
  ghost predicate WellTagged(threads: nat, m: Msg) {
    m.channel == m.origin && m.origin < threads
  }

  ghost predicate AllFrom(ms: seq<Msg>, origin: nat) {
    forall j :: 0 <= j < |ms| ==> ms[j].origin == origin
  }

  ghost predicate AllTaggedFor(ms: seq<Msg>, channel: nat) {
    forall j :: 0 <= j < |ms| ==> ms[j].origin == channel && ms[j].channel == channel
  }

  ghost predicate AllWellTagged(threads: nat, ms: seq<Msg>) {
    forall j :: 0 <= j < |ms| ==> WellTagged(threads, ms[j])
  }

  ghost predicate ThreadTags(ts: seq<MuxThread>) {
    forall k :: 0 <= k < |ts| ==>
      match ts[k].pc
      case Waiting => true
      case Dequeued(m) => m.origin == k
      case Tagged(m) => m.origin == k && m.channel == k
  }

  ghost predicate RightTags(s: State) {
    && (forall i :: 0 <= i < |s.rightIn| ==> AllFrom(s.rightIn[i], i))
    && (forall c :: 0 <= c < |s.rightOut| ==> AllTaggedFor(s.rightOut[c], c))
    && (forall c :: 0 <= c < |s.delivered| ==> AllTaggedFor(s.delivered[c], c))
    && ThreadTags(s.mux)
  }

  ghost predicate LeftTags(s: State) {
    && AllWellTagged(|s.mux|, s.leftOut)
    && AllWellTagged(|s.mux|, s.processing)
    && AllWellTagged(|s.mux|, s.leftIn)
    && (s.demux.DemuxHolding? ==> WellTagged(|s.mux|, s.demux.m))
    && s.invalid == []
  }

  ghost predicate Bounded(s: State) {
    && (forall i :: 0 <= i < |s.rightIn| ==> |s.rightIn[i]| <= s.capacity + 1)
    && (forall c :: 0 <= c < |s.rightOut| ==> |s.rightOut[c]| <= s.capacity + 1)
    && |s.leftOut| <= s.capacity + 1 && |s.leftIn| <= s.capacity + 1
  }

  ghost predicate Safe(s: State) {
    Structure(s) && RightTags(s) && LeftTags(s) && Bounded(s)
  }

  /** A tag in flight passes the check and indexes an existing output queue, even while
      the channel that wrote it is only half added. */
  lemma TagIsRoutable(s: State, m: Msg)
    requires Structure(s) && WellTagged(|s.mux|, m)
    ensures PassesCheck(s, m.channel) && m.channel < |s.rightOut|
  {
  }

  lemma StepKeepsStructure(s: State, a: Action)
    requires Structure(s) && Enabled(s, a) && !RoutesPastEnd(s, a)
    ensures Structure(Apply(s, a)) && |Apply(s, a).mux| >= |s.mux|
  {
  }

  lemma StepKeepsBounded(s: State, a: Action)
    requires Bounded(s) && Enabled(s, a) && !RoutesPastEnd(s, a)
    ensures Bounded(Apply(s, a))
  {
  }

  lemma StepKeepsRightTags(s: State, a: Action)
    requires Structure(s) && RightTags(s) && LeftTags(s) && Enabled(s, a) && !RoutesPastEnd(s, a)
    ensures RightTags(Apply(s, a))
  {
  }

  lemma StepKeepsLeftTags(s: State, a: Action)
    requires Structure(s) && RightTags(s) && LeftTags(s) && Enabled(s, a) && !RoutesPastEnd(s, a)
    ensures LeftTags(Apply(s, a))
  {
    if a.DemuxRoute? {
      TagIsRoutable(s, s.demux.m);
    }
  }

  lemma StepKeepsSafe(s: State, a: Action)
    requires Safe(s) && Enabled(s, a)
    ensures !RoutesPastEnd(s, a) && Safe(Apply(s, a))
  {
    if a.DemuxRoute? {
      TagIsRoutable(s, s.demux.m);
    }
    StepKeepsStructure(s, a);
    StepKeepsBounded(s, a);
    StepKeepsRightTags(s, a);
    StepKeepsLeftTags(s, a);
  }

  predicate CanRun(s: State, run: seq<Action>)
    decreases |run|
  {
    run == [] ||
    (Enabled(s, run[0]) && !RoutesPastEnd(s, run[0]) && CanRun(Apply(s, run[0]), run[1..]))
  }

  function Exec(s: State, run: seq<Action>): State
    requires CanRun(s, run)
    decreases |run|
  {
    if run == [] then s else Exec(Apply(s, run[0]), run[1..])
  }

  // ---- Conservation ----

  /** How often a message id occurs in a queue, in several queues, in the threads' hands. */
  function Occurs(ms: seq<Msg>, id: nat): nat {
    if ms == [] then 0 else (if ms[0].id == id then 1 else 0) + Occurs(ms[1..], id)
  }

  function OccursInAll(qs: seq<seq<Msg>>, id: nat): nat {
    if qs == [] then 0 else Occurs(qs[0], id) + OccursInAll(qs[1..], id)
  }

  function HeldBy(pc: MuxPc, id: nat): nat {
    match pc
    case Waiting => 0
    case Dequeued(m) => if m.id == id then 1 else 0
    case Tagged(m) => if m.id == id then 1 else 0
  }

  function Held(ts: seq<MuxThread>, id: nat): nat {
    if ts == [] then 0 else HeldBy(ts[0].pc, id) + Held(ts[1..], id)
  }

  function HeldByDemux(d: DemuxPc, id: nat): nat {
    match d
    case DemuxWaiting => 0
    case DemuxHolding(m) => if m.id == id then 1 else 0
  }

  /** In how many places a message is: queues, hands, delivered, rejected or invalid. */
  function Places(s: State, id: nat): nat {
    OccursInAll(s.rightIn, id) + Held(s.mux, id) + Occurs(s.leftOut, id) + Occurs(s.processing, id)
    + Occurs(s.leftIn, id) + HeldByDemux(s.demux, id) + OccursInAll(s.rightOut, id)
    + OccursInAll(s.delivered, id) + Occurs(s.rejected, id) + Occurs(s.invalid, id)
  }

  lemma {:induction false} OccursConcat(a: seq<Msg>, b: seq<Msg>, id: nat)
    ensures Occurs(a + b, id) == Occurs(a, id) + Occurs(b, id)
  {
    if a == [] {
      assert a + b == b;
    } else {
      OccursConcat(a[1..], b, id);
      assert (a + b)[1..] == a[1..] + b;
    }
  }

  lemma {:induction false} NewEmptyQueue(a: seq<seq<Msg>>, id: nat)
    ensures OccursInAll(a + [[]], id) == OccursInAll(a, id)
  {
    if a == [] {
      assert a + [[]] == [[]];
    } else {
      NewEmptyQueue(a[1..], id);
      assert (a + [[]])[1..] == a[1..] + [[]];
    }
  }

  lemma {:induction false} NewIdleThread(a: seq<MuxThread>, th: MuxThread, id: nat)
    requires th.pc.Waiting?
    ensures Held(a + [th], id) == Held(a, id)
  {
    if a == [] {
      assert a + [th] == [th];
    } else {
      NewIdleThread(a[1..], th, id);
      assert (a + [th])[1..] == a[1..] + [th];
    }
  }

  lemma Append(a: seq<Msg>, m: Msg, id: nat)
    ensures Occurs(a + [m], id) == Occurs(a, id) + if m.id == id then 1 else 0
  {
    OccursConcat(a, [m], id);
    assert [m][1..] == [];
  }

  lemma {:induction false} QueueUpdate(qs: seq<seq<Msg>>, i: nat, q: seq<Msg>, id: nat)
    requires i < |qs|
    ensures OccursInAll(qs[i := q], id) + Occurs(qs[i], id) == OccursInAll(qs, id) + Occurs(q, id)
  {
    if i == 0 {
      assert qs[i := q][1..] == qs[1..];
    } else {
      QueueUpdate(qs[1..], i - 1, q, id);
      assert qs[i := q][1..] == qs[1..][i-1 := q];
    }
  }

  lemma {:induction false} ThreadUpdate(ts: seq<MuxThread>, k: nat, th: MuxThread, id: nat)
    requires k < |ts|
    ensures Held(ts[k := th], id) + HeldBy(ts[k].pc, id) == Held(ts, id) + HeldBy(th.pc, id)
  {
    if k == 0 {
      assert ts[k := th][1..] == ts[1..];
    } else {
      ThreadUpdate(ts[1..], k - 1, th, id);
      assert ts[k := th][1..] == ts[1..][k-1 := th];
    }
  }

  lemma RemoveAt(ms: seq<Msg>, j: nat, id: nat)
    requires j < |ms|
    ensures Occurs(ms, id) == Occurs(ms[..j] + ms[j+1..], id) + if ms[j].id == id then 1 else 0
  {
    assert ms == ms[..j] + [ms[j]] + ms[j+1..];
    OccursConcat(ms[..j] + [ms[j]], ms[j+1..], id);
    Append(ms[..j], ms[j], id);
    OccursConcat(ms[..j], ms[j+1..], id);
  }

  lemma AddConserves(s: State, id: nat)
    ensures Places(AddChannel(s), id) == Places(s, id)
  {
    match s.adder
    case Ready => NewEmptyQueue(s.rightIn, id);
    case PushedIn =>
      NewEmptyQueue(s.rightOut, id);
      NewEmptyQueue(s.delivered, id);
    case PushedOut =>
      var queue := if |s.rightIn| > 0 then |s.rightIn| - 1 else 0;
      NewIdleThread(s.mux, MuxThread(queue, s.numChannels, Waiting), id);
    case Spawned =>
  }

  lemma InjectAddsOne(s: State, i: nat, freshId: nat, junk: int, id: nat)
    requires Enabled(s, Inject(i, freshId, junk))
    ensures Places(Apply(s, Inject(i, freshId, junk)), id) == Places(s, id) + if id == freshId then 1 else 0
  {
    var m := Msg(freshId, i, junk);
    Append(s.rightIn[i], m, id);
    QueueUpdate(s.rightIn, i, s.rightIn[i] + [m], id);
    Append(s.rejected, m, id);
  }

  lemma MuxConserves(s: State, a: Action, id: nat)
    requires Enabled(s, a) && (a.MuxTake? || a.MuxTag? || a.MuxSend?)
    ensures Places(Apply(s, a), id) == Places(s, id)
  {
    var th := s.mux[a.thread];
    ThreadUpdate(s.mux, a.thread, Apply(s, a).mux[a.thread], id);
    if a.MuxTake? {
      QueueUpdate(s.rightIn, th.inQueue, s.rightIn[th.inQueue][1..], id);
    } else if a.MuxSend? {
      Append(s.leftOut, th.pc.m, id);
      Append(s.rejected, th.pc.m, id);
    }
  }

  lemma ProcessorConserves(s: State, a: Action, id: nat)
    requires Enabled(s, a) && (a.ProcessorTake? || a.ProcessorReply?)
    ensures Places(Apply(s, a), id) == Places(s, id)
  {
    if a.ProcessorTake? {
      Append(s.processing, s.leftOut[0], id);
    } else {
      var m := s.processing[a.which];
      RemoveAt(s.processing, a.which, id);
      Append(s.leftIn, m, id);
      Append(s.rejected, m, id);
    }
  }

  lemma DemuxConserves(s: State, a: Action, id: nat)
    requires Enabled(s, a) && !RoutesPastEnd(s, a) && (a.DemuxTake? || a.DemuxRoute? || a.Consume?)
    ensures Places(Apply(s, a), id) == Places(s, id)
  {
    match a
    case DemuxTake =>
    case DemuxRoute =>
      var m := s.demux.m;
      if PassesCheck(s, m.channel) {
        Append(s.rightOut[m.channel], m, id);
        QueueUpdate(s.rightOut, m.channel, s.rightOut[m.channel] + [m], id);
      }
      Append(s.rejected, m, id);
      Append(s.invalid, m, id);
    case Consume(c) =>
      var q := s.rightOut[c];
      QueueUpdate(s.rightOut, c, q[1..], id);
      Append(s.delivered[c], q[0], id);
      QueueUpdate(s.delivered, c, s.delivered[c] + [q[0]], id);
  }

  /** One step moves at most one message; only an injection adds one, and only its own. */
  lemma StepConserves(s: State, a: Action, id: nat)
    requires Enabled(s, a) && !RoutesPastEnd(s, a)
    ensures Places(Apply(s, a), id) == Places(s, id) + if a.Inject? && a.id == id then 1 else 0
    ensures Apply(s, a).injected == if a.Inject? then s.injected + {a.id} else s.injected
  {
    match a
    case AddChannelStep => AddConserves(s, id);
    case Inject(i, freshId, junk) => InjectAddsOne(s, i, freshId, junk, id);
    case MuxTake(_) => MuxConserves(s, a, id);
    case MuxTag(_) => MuxConserves(s, a, id);
    case MuxSend(_) => MuxConserves(s, a, id);
    case ProcessorTake => ProcessorConserves(s, a, id);
    case ProcessorReply(_) => ProcessorConserves(s, a, id);
    case DemuxTake => DemuxConserves(s, a, id);
    case DemuxRoute => DemuxConserves(s, a, id);
    case Consume(_) => DemuxConserves(s, a, id);
  }

  // ---- Over every interleaving ----

  lemma {:induction false} RunKeepsSafe(s: State, run: seq<Action>)
    requires Safe(s) && CanRun(s, run)
    ensures Safe(Exec(s, run))
    decreases |run|
  {
    if run != [] {
      StepKeepsSafe(s, run[0]);
      RunKeepsSafe(Apply(s, run[0]), run[1..]);
    }
  }

  lemma {:induction false} RunConserves(s: State, run: seq<Action>, id: nat)
    requires CanRun(s, run) && Places(s, id) == if id in s.injected then 1 else 0
    ensures var s' := Exec(s, run); Places(s', id) == if id in s'.injected then 1 else 0
    decreases |run|
  {
    if run != [] {
      StepConserves(s, run[0], id);
      RunConserves(Apply(s, run[0]), run[1..], id);
    }
  }

  /** In every interleaving: no output queue is indexed out of range, no message fails the
      channel check, whatever sits in or left an output queue came from that very channel,
      queues respect their bound, and each injected message is in exactly one place. */
  lemma EveryRunIsSafe(capacity: nat, run: seq<Action>)
    requires CanRun(Init(capacity), run)
    ensures var s := Exec(Init(capacity), run);
            && Safe(s)
            && (forall a :: Enabled(s, a) ==> !RoutesPastEnd(s, a))
            && (forall id :: Places(s, id) == if id in s.injected then 1 else 0)
  {
    RunKeepsSafe(Init(capacity), run);
    var s := Exec(Init(capacity), run);
    forall a | Enabled(s, a)
      ensures !RoutesPastEnd(s, a)
    {
      StepKeepsSafe(s, a);
    }
    forall id: nat
      ensures Places(s, id) == if id in s.injected then 1 else 0
    {
      RunConserves(Init(capacity), run, id);
    }
  }

  /** An interleaving is never cut short by an out-of-range index: enabled steps always run. */
  lemma {:induction false} RunsExtend(capacity: nat, run: seq<Action>, a: Action)
    requires CanRun(Init(capacity), run) && Enabled(Exec(Init(capacity), run), a)
    ensures CanRun(Init(capacity), run + [a])
  {
    EveryRunIsSafe(capacity, run);
    ExtendRun(Init(capacity), run, a);
  }

  lemma {:induction false} ExtendRun(s: State, run: seq<Action>, a: Action)
    requires CanRun(s, run) && Enabled(Exec(s, run), a) && !RoutesPastEnd(Exec(s, run), a)
    ensures CanRun(s, run + [a])
    ensures Exec(s, run + [a]) == Apply(Exec(s, run), a)
    decreases |run|
  {
    if run == [] {
      assert run + [a] == [a] && [a][1..] == [];
    } else {
      ExtendRun(Apply(s, run[0]), run[1..], a);
      assert (run + [a])[1..] == run[1..] + [a];
    }
  }

  // ---- What is rejected, and in which order messages pass ----

  /** The queue an action offers a message to, if it does. */
  datatype Offer = NoOffer | Offer(queue: seq<Msg>, m: Msg)

  function Offered(s: State, a: Action): Offer
    requires Enabled(s, a) && !RoutesPastEnd(s, a)
  {
    match a
    case Inject(i, id, junk) => Offer(s.rightIn[i], Msg(id, i, junk))
    case MuxSend(k) => Offer(s.leftOut, s.mux[k].pc.m)
    case ProcessorReply(j) => Offer(s.leftIn, s.processing[j])
    case DemuxRoute =>
      if 0 <= s.demux.m.channel < |s.rightOut| then Offer(s.rightOut[s.demux.m.channel], s.demux.m) else NoOffer
    case _ => NoOffer
  }

  /** A message is rejected exactly when the queue it is offered to holds one more than the
      configured maximum, wherever that happens; none is dropped in another way. */
  lemma RejectedExactlyWhenFull(s: State, a: Action)
    requires Safe(s) && Enabled(s, a)
    ensures !RoutesPastEnd(s, a)
    ensures var o, s' := Offered(s, a), Apply(s, a);
            && s'.rejected == (if o.Offer? && |o.queue| == s.capacity + 1 then s.rejected + [o.m] else s.rejected)
            && s'.invalid == []
  {
    StepKeepsSafe(s, a);
    if a.DemuxRoute? {
      TagIsRoutable(s, s.demux.m);
    }
  }

  /** Demux puts a reply behind the others of its channel whenever that queue has room, and
      touches no other queue. */
  lemma DemuxDelivers(s: State)
    requires Safe(s) && s.demux.DemuxHolding?
    ensures var m, s' := s.demux.m, Apply(s, DemuxRoute);
            && 0 <= m.channel == m.origin < |s.rightOut| && s'.demux == DemuxWaiting
            && (|s.rightOut[m.channel]| <= s.capacity ==>
                  s'.rightOut == s.rightOut[m.channel := s.rightOut[m.channel] + [m]] && s'.rejected == s.rejected)
            && (|s.rightOut[m.channel]| > s.capacity ==>
                  s'.rightOut == s.rightOut && s'.rejected == s.rejected + [m])
  {
    TagIsRoutable(s, s.demux.m);
  }

  /** The queues of the multiplexer. */
  datatype Place = RightIn(i: nat) | LeftOut | LeftIn | RightOut(c: nat)

  function QueueAt(s: State, p: Place): seq<Msg> {
    match p
    case RightIn(i) => if i < |s.rightIn| then s.rightIn[i] else []
    case LeftOut => s.leftOut
    case LeftIn => s.leftIn
    case RightOut(c) => if c < |s.rightOut| then s.rightOut[c] else []
  }

  /** Whether an action offers its message to the given queue. */
  predicate OffersTo(s: State, a: Action, p: Place)
    requires Enabled(s, a)
  {
    match a
    case Inject(i, _, _) => p == RightIn(i)
    case MuxSend(_) => p == LeftOut
    case ProcessorReply(_) => p == LeftIn
    case DemuxRoute => p.RightOut? && p.c == s.demux.m.channel
    case _ => false
  }

  /** What enters a queue: the message offered, if there is room. */
  function Entering(s: State, a: Action, p: Place): seq<Msg>
    requires Enabled(s, a) && !RoutesPastEnd(s, a)
  {
    if OffersTo(s, a, p) && |QueueAt(s, p)| <= s.capacity && Offered(s, a).Offer? then [Offered(s, a).m] else []
  }

  /** What is handed out of a queue, as its taker holds it afterwards. */
  function Leaving(s: State, a: Action, p: Place): seq<Msg>
    requires Enabled(s, a) && !RoutesPastEnd(s, a)
  {
    var s' := Apply(s, a);
    match a
    case MuxTake(k) =>
      if p == RightIn(s.mux[k].inQueue) && k < |s'.mux| && s'.mux[k].pc.Dequeued? then [s'.mux[k].pc.m] else []
    case ProcessorTake => if p.LeftOut? && s'.processing != [] then [s'.processing[|s'.processing|-1]] else []
    case DemuxTake => if p.LeftIn? && s'.demux.DemuxHolding? then [s'.demux.m] else []
    case Consume(c) =>
      if p == RightOut(c) && c < |s'.delivered| && s'.delivered[c] != [] then [s'.delivered[c][|s'.delivered[c]|-1]] else []
    case _ => []
  }

  lemma Uncons(q: seq<Msg>)
    requires q != []
    ensures q + [] == [q[0]] + q[1..]
  {
  }

  lemma NothingMoves(q: seq<Msg>)
    ensures q + [] == [] + q
  {
  }

  lemma OneEnters(q: seq<Msg>, m: Msg)
    ensures q + [m] == [] + (q + [m])
  {
  }

  /** A step appends to the queue behind and takes from it in front, or leaves it alone. */
  predicate InOrder(s: State, a: Action, p: Place)
    requires Enabled(s, a) && !RoutesPastEnd(s, a)
  {
    QueueAt(s, p) + Entering(s, a, p) == Leaving(s, a, p) + QueueAt(Apply(s, a), p)
  }

  lemma AddInOrder(s: State, p: Place)
    requires Safe(s)
    ensures InOrder(s, AddChannelStep, p)
  {
    NothingMoves(QueueAt(s, p));
  }

  lemma InjectInOrder(s: State, a: Action, p: Place)
    requires Safe(s) && Enabled(s, a) && a.Inject?
    ensures InOrder(s, a, p)
  {
    NothingMoves(QueueAt(s, p));
    OneEnters(QueueAt(s, p), Offered(s, a).m);
  }

  lemma TakeInOrder(s: State, k: nat, p: Place)
    requires Safe(s) && Enabled(s, MuxTake(k))
    ensures InOrder(s, MuxTake(k), p)
  {
    NothingMoves(QueueAt(s, p));
    Uncons(s.rightIn[s.mux[k].inQueue]);
  }

  lemma SendInOrder(s: State, a: Action, p: Place)
    requires Safe(s) && Enabled(s, a) && (a.MuxTag? || a.MuxSend?)
    ensures InOrder(s, a, p)
  {
    NothingMoves(QueueAt(s, p));
    if a.MuxSend? {
      OneEnters(QueueAt(s, p), Offered(s, a).m);
    }
  }

  lemma ProcessorInOrder(s: State, a: Action, p: Place)
    requires Safe(s) && Enabled(s, a) && (a.ProcessorTake? || a.ProcessorReply?)
    ensures InOrder(s, a, p)
  {
    NothingMoves(QueueAt(s, p));
    if a.ProcessorTake? {
      Uncons(s.leftOut);
    } else {
      OneEnters(QueueAt(s, p), Offered(s, a).m);
    }
  }

  lemma DemuxTakeInOrder(s: State, p: Place)
    requires Safe(s) && Enabled(s, DemuxTake)
    ensures InOrder(s, DemuxTake, p)
  {
    NothingMoves(QueueAt(s, p));
    Uncons(s.leftIn);
  }

  lemma RouteInOrder(s: State, p: Place)
    requires Safe(s) && Enabled(s, DemuxRoute) && !RoutesPastEnd(s, DemuxRoute)
    ensures InOrder(s, DemuxRoute, p)
  {
    DemuxDelivers(s);
    NothingMoves(QueueAt(s, p));
    OneEnters(QueueAt(s, p), s.demux.m);
  }

  lemma ConsumeInOrder(s: State, c: nat, p: Place)
    requires Safe(s) && Enabled(s, Consume(c))
    ensures InOrder(s, Consume(c), p)
  {
    NothingMoves(QueueAt(s, p));
    Uncons(s.rightOut[c]);
  }

  lemma StepKeepsOrder(s: State, a: Action, p: Place)
    requires Safe(s) && Enabled(s, a)
    ensures !RoutesPastEnd(s, a) && InOrder(s, a, p)
  {
    StepKeepsSafe(s, a);
    match a
    case AddChannelStep => AddInOrder(s, p);
    case Inject(_, _, _) => InjectInOrder(s, a, p);
    case MuxTake(k) => TakeInOrder(s, k, p);
    case MuxTag(_) => SendInOrder(s, a, p);
    case MuxSend(_) => SendInOrder(s, a, p);
    case ProcessorTake => ProcessorInOrder(s, a, p);
    case ProcessorReply(_) => ProcessorInOrder(s, a, p);
    case DemuxTake => DemuxTakeInOrder(s, p);
    case DemuxRoute => RouteInOrder(s, p);
    case Consume(c) => ConsumeInOrder(s, c, p);
  }

  /** All that entered and left a queue over a run, in order. */
  function Entered(s: State, run: seq<Action>, p: Place): seq<Msg>
    requires CanRun(s, run)
    decreases |run|
  {
    if run == [] then [] else Entering(s, run[0], p) + Entered(Apply(s, run[0]), run[1..], p)
  }

  function Left(s: State, run: seq<Action>, p: Place): seq<Msg>
    requires CanRun(s, run)
    decreases |run|
  {
    if run == [] then [] else Leaving(s, run[0], p) + Left(Apply(s, run[0]), run[1..], p)
  }

  lemma Regroup(q: seq<Msg>, e: seq<Msg>, es: seq<Msg>, l: seq<Msg>, q1: seq<Msg>, ls: seq<Msg>, q2: seq<Msg>)
    requires q + e == l + q1 && q1 + es == ls + q2
    ensures q + (e + es) == l + ls + q2
  {
    assert q + (e + es) == q + e + es;
    assert l + q1 + es == l + (q1 + es);
    assert l + (ls + q2) == l + ls + q2;
  }

  lemma {:induction false} RunKeepsOrder(s: State, run: seq<Action>, p: Place)
    requires Safe(s) && CanRun(s, run)
    ensures QueueAt(s, p) + Entered(s, run, p) == Left(s, run, p) + QueueAt(Exec(s, run), p)
    decreases |run|
  {
    if run == [] {
      NothingMoves(QueueAt(s, p));
    } else {
      var s1 := Apply(s, run[0]);
      StepKeepsOrder(s, run[0], p);
      StepKeepsSafe(s, run[0]);
      RunKeepsOrder(s1, run[1..], p);
      Regroup(QueueAt(s, p), Entering(s, run[0], p), Entered(s1, run[1..], p), Leaving(s, run[0], p), QueueAt(s1, p),
              Left(s1, run[1..], p), QueueAt(Exec(s, run), p));
    }
  }

  /** In every interleaving each queue hands out its messages in the order in which they
      were accepted, and misses none: what entered is what left, then what is still there. */
  lemma FirstInFirstOut(capacity: nat, run: seq<Action>, p: Place)
    requires CanRun(Init(capacity), run)
    ensures Entered(Init(capacity), run, p) ==
            Left(Init(capacity), run, p) + QueueAt(Exec(Init(capacity), run), p)
  {
    RunKeepsOrder(Init(capacity), run, p);
    assert [] + Entered(Init(capacity), run, p) == Entered(Init(capacity), run, p);
  }

  function DeliveredTo(s: State, c: nat): seq<Msg> {
    if c < |s.delivered| then s.delivered[c] else []
  }

  lemma StepDelivers(s: State, a: Action, c: nat)
    requires Safe(s) && Enabled(s, a) && !RoutesPastEnd(s, a)
    ensures DeliveredTo(Apply(s, a), c) == DeliveredTo(s, c) + Leaving(s, a, RightOut(c))
  {
  }

  lemma {:induction false} RunDelivers(s: State, run: seq<Action>, c: nat)
    requires Safe(s) && CanRun(s, run)
    ensures DeliveredTo(Exec(s, run), c) == DeliveredTo(s, c) + Left(s, run, RightOut(c))
    decreases |run|
  {
    if run != [] {
      StepKeepsSafe(s, run[0]);
      StepDelivers(s, run[0], c);
      RunDelivers(Apply(s, run[0]), run[1..], c);
      Reassociate(DeliveredTo(s, c), Leaving(s, run[0], RightOut(c)), Left(Apply(s, run[0]), run[1..], RightOut(c)));
    }
  }

  lemma Reassociate<T>(a: seq<T>, b: seq<T>, c: seq<T>)
    ensures a + (b + c) == a + b + c
  {
  }

  /** So the replies a channel has been given, then those waiting for it, are exactly those
      demux routed to it while its queue had room, in the order in which it routed them. */
  lemma RepliesComeInOrder(capacity: nat, run: seq<Action>, c: nat)
    requires CanRun(Init(capacity), run)
    ensures var s := Exec(Init(capacity), run);
            Entered(Init(capacity), run, RightOut(c)) == DeliveredTo(s, c) + QueueAt(s, RightOut(c))
  {
    FirstInFirstOut(capacity, run, RightOut(c));
    RunDelivers(Init(capacity), run, c);
    assert [] + Left(Init(capacity), run, RightOut(c)) == Left(Init(capacity), run, RightOut(c));
  }

  /** One channel, its input queue and multiplexer thread as given, and nothing else on
      the way but what is in the queues named. */
  function OneChannel(rightIn: seq<Msg>, thread: MuxPc, leftOut: seq<Msg>, processing: seq<Msg>, leftIn: seq<Msg>,
                      demux: DemuxPc, id: nat): State {
    State(0, [rightIn], [[]], 0, Spawned, [MuxThread(0, 0, thread)], leftOut, processing, leftIn, demux, [[]], [], [], {id})
  }

  const REPLY_STEPS: seq<Action> := [ProcessorTake, ProcessorReply(0), DemuxTake]

  lemma CarryReply(t: Msg, id: nat)
    ensures var s := OneChannel([], Waiting, [t], [], [], DemuxWaiting, id);
            CanRun(s, REPLY_STEPS) && Exec(s, REPLY_STEPS) == OneChannel([], Waiting, [], [], [], DemuxHolding(t), id)
  {
    var s := OneChannel([], Waiting, [t], [], [], DemuxWaiting, id);
    var s1 := OneChannel([], Waiting, [], [t], [], DemuxWaiting, id);
    var s2 := OneChannel([], Waiting, [], [], [t], DemuxWaiting, id);
    var s3 := OneChannel([], Waiting, [], [], [], DemuxHolding(t), id);
    StepRun(s2, DemuxTake, s3, []);
    StepRun(s1, ProcessorReply(0), s2, [DemuxTake]);
    StepRun(s, ProcessorTake, s1, [ProcessorReply(0), DemuxTake]);
    assert [DemuxTake] + [] == [DemuxTake] && [ProcessorReply(0)] + [DemuxTake] == [ProcessorReply(0), DemuxTake];
    assert [ProcessorTake] + [ProcessorReply(0), DemuxTake] == REPLY_STEPS;
  }

  lemma TakeFirst(m: Msg)
    ensures var s, s1 := OneChannel([m], Waiting, [], [], [], DemuxWaiting, m.id),
                         OneChannel([], Dequeued(m), [], [], [], DemuxWaiting, m.id);
            Enabled(s, MuxTake(0)) && Apply(s, MuxTake(0)) == s1
  {
    assert [m][1..] == [] && [[m]][0 := []] == [[]];
  }

  /** The steps that carry one message from its input queue to demux. */
  lemma CarryOne(m: Msg)
    ensures var s, t := OneChannel([m], Waiting, [], [], [], DemuxWaiting, m.id), m.(channel := 0);
            var run := [MuxTake(0)] + ([MuxTag(0)] + ([MuxSend(0)] + REPLY_STEPS));
            CanRun(s, run) && Exec(s, run) == OneChannel([], Waiting, [], [], [], DemuxHolding(t), m.id)
  {
    var t := m.(channel := 0);
    var s1 := OneChannel([], Dequeued(m), [], [], [], DemuxWaiting, m.id);
    var s2 := OneChannel([], Tagged(t), [], [], [], DemuxWaiting, m.id);
    var s3 := OneChannel([], Waiting, [t], [], [], DemuxWaiting, m.id);
    CarryReply(t, m.id);
    StepRun(s2, MuxSend(0), s3, REPLY_STEPS);
    StepRun(s1, MuxTag(0), s2, [MuxSend(0)] + REPLY_STEPS);
    TakeFirst(m);
    StepRun(OneChannel([m], Waiting, [], [], [], DemuxWaiting, m.id), MuxTake(0), s1,
            [MuxTag(0)] + ([MuxSend(0)] + REPLY_STEPS));
  }

  /** A channel is added, all but its count, and a message carried to demux. */
  lemma CarryToDemux() returns (run: seq<Action>)
    ensures CanRun(Init(0), run)
    ensures Exec(Init(0), run) == OneChannel([], Waiting, [], [], [], DemuxHolding(Msg(7, 0, 0)), 7)
  {
    var m := Msg(7, 0, -1);
    var s0 := Init(0);
    var s1 := s0.(rightIn := [[]], adder := PushedIn);
    var s2 := s1.(rightOut := [[]], delivered := [[]], adder := PushedOut);
    var s3 := s2.(mux := [MuxThread(0, 0, Waiting)], adder := Spawned);
    var s4 := s3.(rightIn := [[m]], injected := {7});
    var r4 := [MuxTake(0)] + ([MuxTag(0)] + ([MuxSend(0)] + REPLY_STEPS));
    assert s4 == OneChannel([m], Waiting, [], [], [], DemuxWaiting, 7);
    CarryOne(m);
    var r3 := [Inject(0, 7, -1)] + r4;
    assert s3.rightIn[0] + [m] == [m];
    assert s3.rightIn[0 := [m]] == [[m]];
    StepRun(s3, Inject(0, 7, -1), s4, r4);
    var r2 := [AddChannelStep] + r3;
    StepRun(s2, AddChannelStep, s3, r3);
    var r1 := [AddChannelStep] + r2;
    StepRun(s1, AddChannelStep, s2, r2);
    StepRun(s0, AddChannelStep, s1, r1);
    run := [AddChannelStep] + r1;
  }

  /** The check compares with `>`: a message of a channel whose thread already runs while
      its number is not yet counted carries channel == m_num_channels, and must pass. */
  lemma CheckMustAdmitTheCount()
    ensures exists run :: CanRun(Init(0), run) &&
              var s := Exec(Init(0), run);
              s.demux.DemuxHolding? && s.demux.m.channel == s.numChannels && PassesCheck(s, s.demux.m.channel)
  {
    var run := CarryToDemux();
    assert CanRun(Init(0), run) && Exec(Init(0), run).demux.DemuxHolding?;
  }

  /** Two steps later the channel's consumer has the message. */
  lemma MessageIsDelivered()
    ensures exists run :: CanRun(Init(0), run) && Exec(Init(0), run).delivered == [[Msg(7, 0, 0)]]
  {
    var m := Msg(7, 0, 0);
    var run := CarryToDemux();
    var s := Exec(Init(0), run);
    assert [] + [m] == [m] && [[]][0 := [m]] == [[m]];
    assert Route(s, m).rightOut == [[m]];
    ExtendRun(Init(0), run, DemuxRoute);
    var s' := Exec(Init(0), run + [DemuxRoute]);
    assert s'.rightOut == [[m]] && s'.delivered[0] + [m] == [m];
    ExtendRun(Init(0), run + [DemuxRoute], Consume(0));
    assert Exec(Init(0), run + [DemuxRoute] + [Consume(0)]).delivered == [[m]];
  }

  lemma StepRun(s: State, a: Action, s': State, rest: seq<Action>)
    requires Enabled(s, a) && !RoutesPastEnd(s, a) && Apply(s, a) == s' && CanRun(s', rest)
    ensures CanRun(s, [a] + rest) && Exec(s, [a] + rest) == Exec(s', rest)
  {
    assert ([a] + rest)[1..] == rest;
  }
}
