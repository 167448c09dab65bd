/** The main results about the reactor: safety of every run, and the exact limits of that safety. */
module EventLoopSafety {
  import opened Common
  import opened EventLoop
  import opened EventLoopInvariant
  import opened EventLoopRun
  import opened EventLoopBatch
  import opened EventLoopDispatch
  import opened EventLoopTrace
  import opened EventLoopCalls

  // ---------------------------------------------------------------- the deferred-release queue

  /** flush_defer_queue releases its entries in order. */
  function FlushOne(s: State): State
    requires s.deferred != [] && s.deferred[0] in s.heap
  {
    Release(s.(deferred := s.deferred[1..]), s.deferred[0])
  }

  lemma FlushOneContexts(s: State)
    requires ContextsOk(s) && s.deferred != []
    ensures s.deferred[0] in s.heap && ContextsOk(FlushOne(s))
  {
    var c := s.deferred[0];
    assert Owned(s, c);
    QueueTail(s.deferred);
    Locally(s, FlushOne(s), c);
  }

  lemma FlushOneEntries(s: State)
    requires ContextsOk(s) && s.deferred != [] && s.deferred[0] in s.heap
    ensures forall fd :: SameEntry(s, FlushOne(s), fd)
  {
    assert Owned(s, s.deferred[0]);
  }

  lemma FlushOneKeeps(s: State)
    requires Inv(s) && s.deferred != []
    ensures s.deferred[0] in s.heap && Inv(FlushOne(s))
  {
    FlushOneContexts(s);
    FlushOneEntries(s);
    TimersFrame(s, FlushOne(s));
  }

  function Flush(s: State): (s': State)
    requires Inv(s)
    ensures Inv(s') && s'.deferred == [] && s'.held == s.held && s'.backend == s.backend && s'.active == s.active
    decreases |s.deferred|
  {
    if s.deferred == [] then s
    else
      FlushOneKeeps(s);
      Flush(FlushOne(s))
  }

  // ---------------------------------------------------------------- one turn of the loop

  /** The first pass over the batch retains its timers. */
  function HoldAll(s: State, events: seq<Event>): (s': State)
    requires Inv(s) && AllAlive(s, events)
    ensures Inv(s') && s'.held == s.held + TimersOf(events)
    ensures s'.heap == s.heap && s'.rearm == s.rearm && s'.backend == s.backend
    decreases |events|
  {
    if events == [] then s
    else if events[0].SocketEvent? then HoldAll(s, events[1..])
    else
      HoldKeeps(s, events[0].timer);
      HoldAll(Hold(s, events[0].timer), events[1..])
  }

  lemma HeldBatch(s: State, events: seq<Event>)
    requires Inv(s) && AllAlive(s, events)
    ensures Dispatchable(HoldAll(s, events), events)
  {
    forall i | 0 <= i < |events| && events[i].SocketEvent? ensures Live(HoldAll(s, events), events[i].ctx) {
      assert Alive(s, events[i]);
    }
  }

  function BeginBatch(s: State, events: seq<Event>): (s': State)
    requires Inv(s) && AllAlive(s, events)
    ensures Dispatchable(s', events)
  {
    HeldBatch(s, events);
    HoldAll(s, events)
  }

  lemma ReadyBatch(s: State, events: seq<Event>)
    requires Inv(s) && AllReady(s, events)
    ensures AllAlive(s, events) && AllPinned(BeginBatch(s, events), events)
  {
    forall i | 0 <= i < |events| ensures Alive(s, events[i]) { assert Ready(s, events[i]); }
    forall i | 0 <= i < |events| && events[i].SocketEvent? ensures Pinned(BeginBatch(s, events), events[i].ctx) {
      assert Ready(s, events[i]);
    }
  }

  /** The contexts a batch refers to. */
  function BatchOf(events: seq<Event>): set<int> {
    set i | 0 <= i < |events| && events[i].SocketEvent? :: events[i].ctx
  }

  /**
   Batch safety, for both back ends and for every behaviour of the handlers: no context of the batch is freed
   while the batch is dispatched, no callback runs for a socket or timer removed earlier in the batch, every callback
   that is due by the history of the batch is made, and the retains on the batch's timers balance.
   */
  lemma BatchSafety(s: State, events: seq<Event>, scripts: seq<Script>)
    requires Inv(s) && AllReady(s, events) && s.held == multiset{} && |scripts| == |events|
    requires AllAlive(s, events) ==> LegalBatch(BeginBatch(s, events), events, scripts)
    ensures AllAlive(s, events) && SafeBatch(BeginBatch(s, events), events, scripts)
    ensures var (s', tr) := Dispatch(BeginBatch(s, events), events, scripts);
            && Inv(s') && s'.held == multiset{}
            && (forall c :: c in BatchOf(events) ==> c in s'.heap)
            && SafeTrace(tr)
    ensures var s1 := BeginBatch(s, events); Dispatch(s1, events, scripts) == ByHistory(s1, s1, [], events, scripts)
  {
    ReadyBatch(s, events);
    var s1 := BeginBatch(s, events);
    PinnedIsSafe(s1, events, scripts);
    assert s1.held == TimersOf(events);
    PinnedDispatch(s1, events, scripts);
    PinnedIsDue(s1, events, scripts);
  }

  /** The dispatch of a pinned batch that has its timers retained. */
  lemma PinnedDispatch(s: State, events: seq<Event>, scripts: seq<Script>)
    requires Dispatchable(s, events) && AllPinned(s, events) && |scripts| == |events| && SafeBatch(s, events, scripts)
    requires s.held == TimersOf(events)
    ensures var (s', tr) := Dispatch(s, events, scripts);
            s'.held == multiset{} && (forall c :: c in BatchOf(events) ==> c in s'.heap) && SafeTrace(tr)
  {
    DispatchKeeps(s, events, scripts, 0);
    SoundStart(s, events);
    DispatchAgrees(s, events, scripts, [], BatchOf(events));
    var (s', tr) := Dispatch(s, events, scripts);
    SoundEnd(s', tr, BatchOf(events));
  }

  lemma SoundStart(s: State, events: seq<Event>)
    requires AllPinned(s, events)
    ensures Sound(s, [], BatchOf(events)) && InBatch(events, BatchOf(events))
  {
    forall c | c in BatchOf(events) ensures Pinned(s, c) {
      var i :| 0 <= i < |events| && events[i].SocketEvent? && events[i].ctx == c;
      assert Pinned(s, events[i].ctx);
    }
  }

  lemma SoundEnd(s: State, tr: seq<Mark>, batch: set<int>)
    requires Sound(s, [] + tr, batch)
    ensures SafeTrace(tr) && forall c :: c in batch ==> c in s.heap
  {
    assert [] + tr == tr;
  }

  // ---------------------------------------------------------------- whole runs

  /** What happens to a loop: a call from outside, a poll whose events are dropped, or a turn of event_loop_run. */
  datatype Step = Call(action: Action) | Poll(answers: Answers) | Turn(answers: Answers, scripts: seq<Script>)

  /** Between turns: the invariant holds and no batch holds a timer. */
  ghost predicate Rest(s: State) {
    Inv(s) && s.held == multiset{}
  }

  /** The handlers make legal calls and free no context of the batch; BatchSafety says when they cannot. */
  ghost predicate LegalTurn(s: State, w: Answers, scripts: seq<Script>)
    requires Rest(s)
  {
    Answerable(s, w) &&
    (var (s1, events, ok) := Wait(s, w);
     ok ==> (WaitIsAlive(s, w);
             |scripts| == |events| && SafeBatch(BeginBatch(s1, events), events, scripts)))
  }

  ghost predicate LegalStep(s: State, step: Step)
    requires Rest(s)
  {
    match step
    case Call(a) => Legal(s, a)
    case Poll(w) => Answerable(s, w)
    case Turn(w, scripts) => LegalTurn(s, w, scripts)
  }

  lemma WaitHolds(s: State, w: Answers)
    requires Inv(s) && Answerable(s, w)
    ensures Wait(s, w).0.held == s.held
  {
    if w.UringAnswers? && w.flushOk {
      DrainHolds(s, w.oks);
      CompletionsHold(Drain(s, w.oks), w.cqes, []);
    }
  }

  lemma {:induction false} DrainHolds(s: State, oks: seq<bool>)
    requires Inv(s) && s.backend.Uring? && |oks| <= |s.rearm|
    ensures Drain(s, oks).held == s.held
    decreases |oks|
  {
    if oks != [] {
      DrainOneKeeps(s, oks[0]);
      DrainOneHolds(s, oks[0]);
      DrainHolds(DrainOne(s, oks[0]), oks[1..]);
    }
  }

  lemma {:induction false} CompletionsHold(s: State, cqes: seq<Cqe>, events: seq<Event>)
    requires Inv(s) && s.backend.Uring? && OpsOf(cqes) <= s.kernel
    ensures Completions(s, cqes, events).state.held == s.held
    decreases |cqes|
  {
    if cqes == [] || (cqes[0].op.kind.PollAdd? && |events| >= MAX_EVENTS) {
    } else {
      CompletionStep(s, cqes);
      var q := cqes[0];
      var x := s.heap[q.op.ctx];
      CompleteEvolves(s, q, q.op.ctx);
      CompletionsHold(Complete(s, q), cqes[1..], events + Reported(x, q));
    }
  }

  /** One turn of event_loop_run: wait, retain, dispatch, flush. */
  function TakeTurn(s: State, w: Answers, scripts: seq<Script>): State
    requires Rest(s) && LegalTurn(s, w, scripts)
  {
    var (s1, events, ok) := Wait(s, w);
    if !ok then s1
    else
      WaitIsAlive(s, w);
      Flush(Dispatch(BeginBatch(s1, events), events, scripts).0)
  }

  function Take(s: State, step: Step): State
    requires Rest(s) && LegalStep(s, step)
  {
    match step
    case Call(a) => Apply(s, a).0
    case Poll(w) => Wait(s, w).0
    case Turn(w, scripts) => TakeTurn(s, w, scripts)
  }

  lemma TurnKeeps(s: State, w: Answers, scripts: seq<Script>)
    requires Rest(s) && LegalTurn(s, w, scripts)
    ensures Rest(TakeTurn(s, w, scripts))
  {
    WaitHolds(s, w);
    var (s1, events, ok) := Wait(s, w);
    if ok {
      WaitIsAlive(s, w);
      DispatchKeeps(BeginBatch(s1, events), events, scripts, 0);
      assert BeginBatch(s1, events) == HoldAll(s1, events);
    }
  }

  lemma StepKeeps(s: State, step: Step)
    requires Rest(s) && LegalStep(s, step)
    ensures Rest(Take(s, step))
  {
    match step
    case Call(a) =>
      ApplyKeeps(s, a);
      ApplyKeepsHeld(s, a);
    case Poll(w) => WaitHolds(s, w);
    case Turn(w, scripts) => TurnKeeps(s, w, scripts);
  }

  ghost predicate LegalRun(s: State, steps: seq<Step>)
    requires Rest(s)
    decreases |steps|
  {
    steps == [] ||
    (LegalStep(s, steps[0]) && (StepKeeps(s, steps[0]); LegalRun(Take(s, steps[0]), steps[1..])))
  }

  function Run(s: State, steps: seq<Step>): State
    requires Rest(s) && LegalRun(s, steps)
    decreases |steps|
  {
    if steps == [] then s
    else
      StepKeeps(s, steps[0]);
      Run(Take(s, steps[0]), steps[1..])
  }

  /** In every reachable state of either back end, whatever the masks, the ownership equation holds. */
  lemma {:induction false} EveryRunKeeps(s: State, steps: seq<Step>)
    requires Rest(s) && LegalRun(s, steps)
    ensures Rest(Run(s, steps))
    decreases |steps|
  {
    if steps != [] {
      StepKeeps(s, steps[0]);
      EveryRunKeeps(Take(s, steps[0]), steps[1..]);
    }
  }

  lemma InitialIsAtRest(backend: Backend)
    ensures Rest(Initial(backend))
  {
    var s := Initial(backend);
    forall c: int ensures Owned(s, c) { }
    forall t: int ensures TimerOwned(s, t) { }
  }

  // ---------------------------------------------------------------- what all steps keep, a run keeps

  /** `p` survives fair calls, fair waits, the batch's hold on timers and the flush. */
  ghost predicate SteadyRun(p: State -> bool, fair: Action -> bool, fairWait: Answers -> bool) {
    && Steady(p, fair)
    && (forall s: State, w: Answers :: Inv(s) && Answerable(s, w) && fairWait(w) && p(s) ==> p(Wait(s, w).0))
    && (forall s: State :: Inv(s) && s.deferred != [] && s.deferred[0] in s.heap && p(s) ==> p(FlushOne(s)))
  }

  predicate FairStep(step: Step, fair: Action -> bool, fairWait: Answers -> bool) {
    match step
    case Call(a) => fair(a)
    case Poll(w) => fairWait(w)
    case Turn(w, scripts) => fairWait(w) && FairScripts(scripts, fair)
  }

  lemma {:induction false} HoldAllSteady(p: State -> bool, fair: Action -> bool, s: State, events: seq<Event>)
    requires Steady(p, fair) && Inv(s) && AllAlive(s, events) && p(s)
    ensures p(HoldAll(s, events))
    decreases |events|
  {
    if events != [] {
      if events[0].SocketEvent? {
        HoldAllSteady(p, fair, s, events[1..]);
      } else {
        assert Alive(s, events[0]);
        HoldKeeps(s, events[0].timer);
        HoldAllSteady(p, fair, Hold(s, events[0].timer), events[1..]);
      }
    }
  }

  lemma {:induction false} FlushSteady(p: State -> bool, fair: Action -> bool, fairWait: Answers -> bool, s: State)
    requires SteadyRun(p, fair, fairWait) && Inv(s) && p(s)
    ensures p(Flush(s))
    decreases |s.deferred|
  {
    if s.deferred != [] {
      FlushOneKeeps(s);
      FlushSteady(p, fair, fairWait, FlushOne(s));
    }
  }

  lemma TurnSteady(p: State -> bool, fair: Action -> bool, fairWait: Answers -> bool, s: State, w: Answers, scripts: seq<Script>)
    requires SteadyRun(p, fair, fairWait) && Rest(s) && LegalTurn(s, w, scripts) && fairWait(w) && FairScripts(scripts, fair) && p(s)
    ensures p(TakeTurn(s, w, scripts))
  {
    var (s1, events, ok) := Wait(s, w);
    assert p(Wait(s, w).0);
    if ok {
      WaitIsAlive(s, w);
      HoldAllSteady(p, fair, s1, events);
      DispatchSteady(p, fair, BeginBatch(s1, events), events, scripts);
      FlushSteady(p, fair, fairWait, Dispatch(BeginBatch(s1, events), events, scripts).0);
    }
  }

  lemma StepSteady(p: State -> bool, fair: Action -> bool, fairWait: Answers -> bool, s: State, step: Step)
    requires SteadyRun(p, fair, fairWait) && Rest(s) && LegalStep(s, step) && FairStep(step, fair, fairWait) && p(s)
    ensures p(Take(s, step))
  {
    match step
    case Call(a) => assert Legal(s, a) && fair(a);
    case Poll(w) => assert Answerable(s, w);
    case Turn(w, scripts) => TurnSteady(p, fair, fairWait, s, w, scripts);
  }

  lemma {:induction false} EveryRunSteady(p: State -> bool, fair: Action -> bool, fairWait: Answers -> bool, s: State, steps: seq<Step>)
    requires SteadyRun(p, fair, fairWait) && Rest(s) && LegalRun(s, steps) && p(s)
    requires forall i :: 0 <= i < |steps| ==> FairStep(steps[i], fair, fairWait)
    ensures p(Run(s, steps))
    decreases |steps|
  {
    if steps != [] {
      StepKeeps(s, steps[0]);
      StepSteady(p, fair, fairWait, s, steps[0]);
      EveryRunSteady(p, fair, fairWait, Take(s, steps[0]), steps[1..]);
    }
  }

  // ---------------------------------------------------------------- runs in which no call passes an empty mask

  predicate MaskedAction(a: Action) {
    MaskOf(a) != 0
  }

  lemma MasksAreSteady()
    ensures SteadyRun(Masked, MaskedAction, (w: Answers) => true)
  {
    forall s: State, a: Action | Inv(s) && Legal(s, a) && MaskedAction(a) && Masked(s) ensures Masked(Apply(s, a).0) {
      ApplyKeepsMasks(s, a);
    }
    forall s: State, w: Answers | Inv(s) && Answerable(s, w) && Masked(s) ensures Masked(Wait(s, w).0) { WaitIsReady(s, w); }
  }

  /** There the masks stay non-empty, so whatever a wait returns next is pinned. */
  lemma MaskedRun(s: State, steps: seq<Step>, w: Answers)
    requires Rest(s) && Masked(s) && LegalRun(s, steps)
    requires forall i :: 0 <= i < |steps| ==> FairStep(steps[i], MaskedAction, (w: Answers) => true)
    ensures Rest(Run(s, steps)) && Masked(Run(s, steps))
    ensures Answerable(Run(s, steps), w) ==> var r := Wait(Run(s, steps), w); r.2 ==> AllReady(r.0, r.1)
  {
    MasksAreSteady();
    EveryRunKeeps(s, steps);
    EveryRunSteady(Masked, MaskedAction, (w: Answers) => true, s, steps);
    if Answerable(Run(s, steps), w) { WaitIsReady(Run(s, steps), w); }
  }

  // ---------------------------------------------------------------- what the equation adds up to

  ghost function Pick(keys: set<int>): (c: int)
    requires keys != {}
    ensures c in keys
  {
    SetEmptyOrNot(keys);
    var k: int :| k in keys;
    k
  }

  ghost function PendingSum(keys: set<int>, heap: map<int, Context>): int
    requires keys <= heap.Keys
  {
    if keys == {} then 0
    else
      var c := Pick(keys);
      heap[c].pending + PendingSum(keys - {c}, heap)
  }

  function WithoutCtx(kernel: multiset<Op>, c: int): multiset<Op> {
    kernel[Op(PollAdd, c) := 0][Op(PollUpdate, c) := 0][Op(PollRemove, c) := 0]
  }

  lemma WithoutCtxCounts(kernel: multiset<Op>, c: int)
    ensures |WithoutCtx(kernel, c)| == |kernel| - OpCount(kernel, c)
    ensures forall d :: d != c ==> OpCount(WithoutCtx(kernel, c), d) == OpCount(kernel, d)
    ensures forall op :: op in WithoutCtx(kernel, c) ==> op in kernel && op.ctx != c
  {
    forall op | op in WithoutCtx(kernel, c) ensures op in kernel && op.ctx != c {
      match op.kind
      case PollAdd => assert op == Op(PollAdd, op.ctx);
      case PollUpdate => assert op == Op(PollUpdate, op.ctx);
      case PollRemove => assert op == Op(PollRemove, op.ctx);
    }
  }

  lemma {:induction false} SumIsOutstanding(keys: set<int>, heap: map<int, Context>, kernel: multiset<Op>)
    requires keys <= heap.Keys && (forall c :: c in keys ==> heap[c].pending == OpCount(kernel, c))
    requires forall op :: op in kernel ==> op.ctx in keys
    ensures PendingSum(keys, heap) == |kernel|
    decreases keys
  {
    if keys == {} {
      assert kernel == multiset{};
    } else {
      var c := Pick(keys);
      WithoutCtxCounts(kernel, c);
      SumIsOutstanding(keys - {c}, heap, WithoutCtx(kernel, c));
    }
  }

  /** uring_pending_total is the sum of pending_ops over all contexts. */
  lemma PendingTotalIsSum(s: State)
    requires ContextsOk(s)
    ensures s.pendingTotal == PendingSum(s.heap.Keys, s.heap)
  {
    forall c | c in s.heap ensures s.heap[c].pending == OpCount(s.kernel, c) { assert Owned(s, c); }
    forall op | op in s.kernel ensures op.ctx in s.heap.Keys { OutstandingIsLive(s, op); }
    SumIsOutstanding(s.heap.Keys, s.heap, s.kernel);
  }

  // ---------------------------------------------------------------- where safety ends

  /** io_uring: removing a socket that is not polled frees its context exactly when only the map holds it. */
  lemma RemovalFrees(s: State, fd: int, res: DelResult)
    requires Inv(s) && s.backend.Uring? && fd in s.ctxMap && !s.heap[s.ctxMap[fd]].armed
    ensures var c := s.ctxMap[fd];
            c !in RemoveSocket(s, fd, res).0.heap <==> c !in s.rearm && OpCount(s.kernel, c) == 0
  {
    assert Owned(s, s.ctxMap[fd]);
  }

  /** The drain submits nothing for a context whose mask is empty. */
  lemma {:induction false} DrainSkipsMuted(s: State, oks: seq<bool>, c: int)
    requires Inv(s) && s.backend.Uring? && |oks| <= |s.rearm| && (c in s.heap ==> s.heap[c].mask == 0)
    ensures OpCount(Drain(s, oks).kernel, c) == OpCount(s.kernel, c)
    decreases |oks|
  {
    if oks != [] {
      DrainOneKeeps(s, oks[0]);
      DrainOneHolds(s, oks[0]);
      DrainOneKeepsMask(s, oks[0], c);
      DrainSkipsMuted(DrainOne(s, oks[0]), oks[1..], c);
    }
  }

  lemma OpsPrefix(cqes: seq<Cqe>, a: seq<Cqe>, b: seq<Cqe>)
    requires cqes == a + b
    ensures OpsOf(a) <= OpsOf(cqes)
  {
    OpsConcat(a, b);
  }

  lemma OpCountMinus(kernel: multiset<Op>, taken: multiset<Op>, c: int)
    requires taken <= kernel
    ensures OpCount(kernel - taken, c) == OpCount(kernel, c) - OpCount(taken, c)
  {
  }

  lemma PrefixFits(cqes: seq<Cqe>, n: nat, kernel: multiset<Op>) returns (taken: multiset<Op>)
    requires OpsOf(cqes) <= kernel && n <= |cqes|
    ensures taken == OpsOf(cqes[..n]) && taken <= kernel
  {
    taken := OpsOf(cqes[..n]);
    OpsPrefix(cqes, cqes[..n], cqes[n..]);
  }

  lemma TakenOps(s: State, cqes: seq<Cqe>, c: int) returns (n: nat)
    requires Inv(s) && s.backend.Uring? && OpsOf(cqes) <= s.kernel
    ensures n <= |cqes| && Completions(s, cqes, []).state.kernel == s.kernel - OpsOf(cqes[..n])
    ensures OpCount(Completions(s, cqes, []).state.kernel, c) == OpCount(s.kernel, c) - OpCount(OpsOf(cqes[..n]), c)
  {
    n := CompletionsConsume(s, s, cqes, []);
    var taken := PrefixFits(cqes, n, s.kernel);
    OpCountMinus(s.kernel, taken, c);
  }

  /** What a wait leaves in flight on a context whose mask is empty. */
  lemma LeftInFlight(s: State, w: Answers, c: int) returns (n: nat)
    requires Inv(s) && Answerable(s, w) && w.UringAnswers? && w.flushOk
    ensures n <= |w.cqes| && Wait(s, w).0.kernel == Drain(s, w.oks).kernel - OpsOf(w.cqes[..n])
    ensures c in s.heap && s.heap[c].mask == 0 ==>
              OpCount(Wait(s, w).0.kernel, c) == OpCount(s.kernel, c) - OpCount(OpsOf(w.cqes[..n]), c)
  {
    n := TakenOps(Drain(s, w.oks), w.cqes, c);
    if c in s.heap && s.heap[c].mask == 0 { DrainSkipsMuted(s, w.oks, c); }
  }

  /**
   io_uring: in the state that a wait hands to the dispatcher, removing the socket of a reported event frees its
   context exactly when its mask was empty before the wait and all operations that were in flight on it are among
   the `n` completions that the wait has taken.
   */
  lemma RemovalFreesIff(s: State, w: Answers, i: nat, res: DelResult) returns (n: nat)
    requires Inv(s) && Answerable(s, w) && w.UringAnswers? && Wait(s, w).2 && i < |Wait(s, w).1| && Wait(s, w).1[i].SocketEvent?
    ensures n <= |w.cqes| && Wait(s, w).0.kernel == Drain(s, w.oks).kernel - OpsOf(w.cqes[..n])
    ensures var s', c := Wait(s, w).0, Wait(s, w).1[i].ctx;
            && c in s.heap && c in s'.heap && InMap(s', c)
            && (c !in RemoveSocket(s', s'.heap[c].fd, res).0.heap <==>
                  s.heap[c].mask == 0 && OpCount(OpsOf(w.cqes[..n]), c) == s.heap[c].pending)
  {
    var (s', events, _) := Wait(s, w);
    var c := events[i].ctx;
    n := LeftInFlight(s, w, c);
    CompletionsSettle(Drain(s, w.oks), w.cqes, []);
    assert Settled(s', events[i]);
    WaitKeepsMask(s, w, c);
    assert Owned(s, c) && Owned(s', c);
    RemovalFrees(s', s'.heap[c].fd, res);
  }

  /**
   epoll: an add loses the context that was in the map, and with it the ownership equation, exactly when the kernel
   takes the descriptor on although the map has it: it was closed without being removed.
   */
  lemma EpollAddLeaksIff(s: State, id: int, owner: Owner, fd: int, mask: nat, ok: bool)
    requires Inv(s) && s.backend.Epoll? && id !in s.heap && 0 <= fd < FD_LIMIT && KernelAdds(s, fd, ok)
    ensures ContextsOk(AddContext(s, id, owner, fd, mask, ok).0) <==> !(ok && Stale(s, fd))
    ensures ok && Stale(s, fd) ==>
              var s', c := AddContext(s, id, owner, fd, mask, ok).0, s.ctxMap[fd];
              c in s'.heap && c !in s'.ctxMap.Values && c !in s'.deferred
  {
    if ok && fd in s.ctxMap {
      LostContext(s, id, owner, fd, mask);
    } else if ok {
      EpollInsertKeeps(s, id, owner, fd, mask);
    }
  }

  lemma LostContext(s: State, id: int, owner: Owner, fd: int, mask: nat)
    requires Inv(s) && s.backend.Epoll? && id !in s.heap && fd in s.ctxMap
    ensures var s', c := EpollInsert(s, id, owner, fd, mask), s.ctxMap[fd];
            !ContextsOk(s') && c in s'.heap && c !in s'.ctxMap.Values && c !in s'.deferred
  {
    var c, s' := s.ctxMap[fd], EpollInsert(s, id, owner, fd, mask);
    assert Owned(s, c);
    assert !Owned(s', c);
    forall f | f in s'.ctxMap ensures s'.ctxMap[f] != c { }
  }
}
