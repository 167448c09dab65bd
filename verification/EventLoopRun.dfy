/** event_backend_wait and its parts, the dispatch of a batch, and whole runs of the loop. */
module EventLoopRun {
  import opened Common
  import opened EventLoop
  import opened EventLoopInvariant

  // ---------------------------------------------------------------- draining the rearm queue

  /** The head of the queue leaves it, and the queue's reference goes with it. */
  function Pop(s: State): State
    requires s.rearm != [] && s.rearm[0] in s.heap
  {
    var c := s.rearm[0];
    Release(s.(heap := s.heap[c := s.heap[c].(queued := false)], rearm := s.rearm[1..]), c)
  }

  /** A fresh POLL_ADD takes the place of the queue entry. */
  function Rearm(s: State): State
    requires s.rearm != [] && s.rearm[0] in s.heap
  {
    var c := s.rearm[0];
    var x := s.heap[c];
    s.(heap := s.heap[c := x.(queued := false, armed := true, pending := x.pending + 1)],
       rearm := s.rearm[1..], kernel := s.kernel + multiset{Op(PollAdd, c)}, pendingTotal := s.pendingTotal + 1)
  }

  /** No submission entry was free: the context goes to the back. */
  function Requeue(s: State): State
    requires s.rearm != [] && s.rearm[0] in s.heap
  {
    s.(rearm := s.rearm[1..] + [s.rearm[0]])
  }

  /** One iteration of the drain loop; `ok` says whether a submission entry was free. */
  function DrainOne(s: State, ok: bool): State
    requires s.rearm != [] && s.rearm[0] in s.heap
  {
    var x := s.heap[s.rearm[0]];
    if x.closing || x.mask == 0 then Pop(s) else if ok then Rearm(s) else Requeue(s)
  }

  lemma QueueTail(q: seq<int>)
    requires q != [] && NoRepeats(q)
    ensures forall d :: d in q[1..] <==> d in q && d != q[0]
    ensures NoRepeats(q[1..]) && NoRepeats(q[1..] + [q[0]])
    ensures forall d :: d in q[1..] + [q[0]] <==> d in q
  {
    assert q == [q[0]] + q[1..];
  }

  lemma PopKeeps(s: State)
    requires ContextsOk(s) && s.backend.Uring? && s.rearm != []
    ensures s.rearm[0] in s.heap && ContextsOk(Pop(s))
  {
    var c := s.rearm[0];
    assert Owned(s, c);
    QueueTail(s.rearm);
    Locally(s, Pop(s), c);
  }

  lemma RearmKeeps(s: State)
    requires ContextsOk(s) && s.backend.Uring? && s.rearm != []
    ensures s.rearm[0] in s.heap && ContextsOk(Rearm(s))
  {
    var c := s.rearm[0];
    assert Owned(s, c);
    QueueTail(s.rearm);
    Locally(s, Rearm(s), c);
  }

  lemma RequeueKeeps(s: State)
    requires ContextsOk(s) && s.backend.Uring? && s.rearm != []
    ensures s.rearm[0] in s.heap && ContextsOk(Requeue(s))
  {
    var c := s.rearm[0];
    assert Owned(s, c);
    QueueTail(s.rearm);
    forall d: int ensures Owned(Requeue(s), d) { assert Owned(s, d); SameOwned(s, Requeue(s), d); }
  }

  lemma DrainOneContexts(s: State, ok: bool)
    requires ContextsOk(s) && s.backend.Uring? && s.rearm != []
    ensures s.rearm[0] in s.heap && ContextsOk(DrainOne(s, ok))
  {
    PopKeeps(s);
    RearmKeeps(s);
    RequeueKeeps(s);
  }

  lemma DrainOneEntries(s: State, ok: bool)
    requires ContextsOk(s) && s.backend.Uring? && s.rearm != [] && s.rearm[0] in s.heap
    ensures forall fd :: SameEntry(s, DrainOne(s, ok), fd)
  {
    assert Owned(s, s.rearm[0]);
  }

  lemma DrainOneKeeps(s: State, ok: bool)
    requires Inv(s) && s.backend.Uring? && s.rearm != []
    ensures s.rearm[0] in s.heap && Inv(DrainOne(s, ok))
  {
    DrainOneContexts(s, ok);
    DrainOneEntries(s, ok);
    TimersFrame(s, DrainOne(s, ok));
  }

  lemma DrainOneHolds(s: State, ok: bool)
    requires s.rearm != [] && s.rearm[0] in s.heap
    ensures DrainOne(s, ok).held == s.held && DrainOne(s, ok).backend == s.backend
    ensures |DrainOne(s, ok).rearm| >= |s.rearm| - 1
  {
  }

  /** The drain visits the entries that were queued when it began, one answer of the ring for each. */
  function Drain(s: State, oks: seq<bool>): State
    requires Inv(s) && s.backend.Uring? && |oks| <= |s.rearm|
    ensures Inv(Drain(s, oks)) && Drain(s, oks).backend.Uring?
    decreases |oks|
  {
    if oks == [] then s
    else
      DrainOneKeeps(s, oks[0]);
      DrainOneHolds(s, oks[0]);
      Drain(DrainOne(s, oks[0]), oks[1..])
  }

  // ---------------------------------------------------------------- completions

  /** A completion queue entry; `allocOk` says whether realloc would succeed. */
  datatype Cqe = Cqe(op: Op, canceled: bool, failed: bool, readable: bool, writable: bool, hangup: bool, allocOk: bool)

  datatype Event = SocketEvent(ctx: int, readable: bool, writable: bool, fault: bool) | TimerEvent(timer: int)

  /** The operation is no longer outstanding and gives its reference back. */
  function FinishOp(s: State, op: Op): State
    requires op.ctx in s.heap
  {
    var x := s.heap[op.ctx];
    Release(s.(kernel := s.kernel - multiset{op}, pendingTotal := s.pendingTotal - 1,
               heap := s.heap[op.ctx := x.(pending := x.pending - 1, armed := x.armed && !op.kind.PollAdd?)]), op.ctx)
  }

  /** As above, but the reference passes to the rearm queue. */
  function FinishAndQueue(s: State, op: Op): State
    requires op.ctx in s.heap
  {
    var x := s.heap[op.ctx];
    s.(kernel := s.kernel - multiset{op}, pendingTotal := s.pendingTotal - 1, rearm := s.rearm + [op.ctx], slots := SlotsFor(s),
       heap := s.heap[op.ctx := x.(pending := x.pending - 1, armed := false, queued := true)])
  }

  predicate Requeues(x: Context, op: Op) {
    op.kind.PollAdd? && !x.closing && x.mask != 0 && !x.queued
  }

  function EventOf(x: Context, q: Cqe): Option<Event> {
    if !q.op.kind.PollAdd? || q.canceled || x.closing then None
    else if x.owner.TimerOwner? then Some(TimerEvent(x.owner.timer))
    else Some(SocketEvent(q.op.ctx, !q.failed && q.readable, !q.failed && q.writable, q.failed || q.hangup))
  }

  function Reported(x: Context, q: Cqe): seq<Event> {
    if EventOf(x, q).Some? then [EventOf(x, q).value] else []
  }

  function Complete(s: State, q: Cqe): State
    requires q.op.ctx in s.heap
  {
    if Requeues(s.heap[q.op.ctx], q.op) && CanQueue(s, q.allocOk) then FinishAndQueue(s, q.op) else FinishOp(s, q.op)
  }

  /** The context has to be queued again, the array is full, and it cannot grow. */
  predicate NoRoom(s: State, q: Cqe)
    requires q.op.ctx in s.heap
  {
    Requeues(s.heap[q.op.ctx], q.op) && !CanQueue(s, q.allocOk)
  }

  lemma OutstandingIsLive(s: State, op: Op)
    requires ContextsOk(s) && op in s.kernel
    ensures op.ctx in s.heap && OpCount(s.kernel, op.ctx) > 0
    ensures op.kind.PollAdd? <==> s.kernel[Op(PollAdd, op.ctx)] > 0 && op == Op(PollAdd, op.ctx)
  {
    assert Owned(s, op.ctx);
    match op.kind
    case PollAdd => assert op == Op(PollAdd, op.ctx);
    case PollUpdate => assert op == Op(PollUpdate, op.ctx);
    case PollRemove => assert op == Op(PollRemove, op.ctx);
  }

  lemma WithoutOp(kernel: multiset<Op>, op: Op, d: int)
    requires op in kernel
    ensures OpCount(kernel - multiset{op}, d) == OpCount(kernel, d) - Bit(d == op.ctx)
    ensures (kernel - multiset{op})[Op(PollAdd, d)] == kernel[Op(PollAdd, d)] - Bit(op == Op(PollAdd, d))
  {
    match op.kind
    case PollAdd => assert op == Op(PollAdd, op.ctx);
    case PollUpdate => assert op == Op(PollUpdate, op.ctx);
    case PollRemove => assert op == Op(PollRemove, op.ctx);
  }

  lemma FinishOpOwned(s: State, op: Op)
    requires op in s.kernel && op.ctx in s.heap && Owned(s, op.ctx) && s.backend.Uring?
    ensures Owned(FinishOp(s, op), op.ctx)
  {
    WithoutOp(s.kernel, op, op.ctx);
    assert op == Op(op.kind, op.ctx);
  }

  lemma FinishOpElsewhere(s: State, op: Op, d: int)
    requires op in s.kernel && op.ctx in s.heap && d != op.ctx
    ensures SameAt(s, FinishOp(s, op), d)
  {
    WithoutOp(s.kernel, op, d);
  }

  lemma FinishOpKeeps(s: State, op: Op)
    requires ContextsOk(s) && s.backend.Uring? && op in s.kernel
    ensures op.ctx in s.heap && ContextsOk(FinishOp(s, op))
  {
    OutstandingIsLive(s, op);
    assert Owned(s, op.ctx);
    FinishOpOwned(s, op);
    forall d | d != op.ctx ensures SameAt(s, FinishOp(s, op), d) { FinishOpElsewhere(s, op, d); }
    Locally(s, FinishOp(s, op), op.ctx);
  }

  lemma FinishAndQueueKeeps(s: State, op: Op)
    requires ContextsOk(s) && s.backend.Uring? && op in s.kernel && op.ctx in s.heap && Requeues(s.heap[op.ctx], op)
    ensures ContextsOk(FinishAndQueue(s, op))
  {
    OutstandingIsLive(s, op);
    assert Owned(s, op.ctx);
    assert op == Op(PollAdd, op.ctx);
    Locally(s, FinishAndQueue(s, op), op.ctx);
  }

  lemma CompleteContexts(s: State, q: Cqe)
    requires ContextsOk(s) && s.backend.Uring? && q.op in s.kernel
    ensures q.op.ctx in s.heap && ContextsOk(Complete(s, q))
  {
    FinishOpKeeps(s, q.op);
    if Requeues(s.heap[q.op.ctx], q.op) { FinishAndQueueKeeps(s, q.op); }
  }

  lemma CompleteEntries(s: State, q: Cqe)
    requires ContextsOk(s) && s.backend.Uring? && q.op in s.kernel && q.op.ctx in s.heap
    ensures forall fd :: SameEntry(s, Complete(s, q), fd)
  {
    OutstandingIsLive(s, q.op);
    assert Owned(s, q.op.ctx);
  }

  lemma CompleteKeeps(s: State, q: Cqe)
    requires Inv(s) && s.backend.Uring? && q.op in s.kernel
    ensures q.op.ctx in s.heap && Inv(Complete(s, q))
  {
    CompleteContexts(s, q);
    CompleteTimers(s, q, Complete(s, q));
  }

  lemma CompleteTimers(s: State, q: Cqe, s': State)
    requires Inv(s) && s.backend.Uring? && q.op in s.kernel && q.op.ctx in s.heap && s' == Complete(s, q)
    ensures TimersOk(s')
  {
    CompleteEntries(s, q);
    TimersFrame(s, s');
  }

  function OpsOf(cqes: seq<Cqe>): multiset<Op> {
    if cqes == [] then multiset{} else multiset{cqes[0].op} + OpsOf(cqes[1..])
  }

  lemma OpsSplit(cqes: seq<Cqe>, kernel: multiset<Op>)
    requires cqes != [] && OpsOf(cqes) <= kernel
    ensures cqes[0].op in kernel && OpsOf(cqes[1..]) <= kernel - multiset{cqes[0].op}
  {
    assert cqes[0].op in OpsOf(cqes);
  }

  lemma CompleteKernel(s: State, q: Cqe)
    requires q.op.ctx in s.heap
    ensures Complete(s, q).kernel == s.kernel - multiset{q.op} && Complete(s, q).backend == s.backend
  {
  }

  /** One turn of the completion loop leaves a state in which the next turn can be taken. */
  lemma CompletionStep(s: State, cqes: seq<Cqe>)
    requires Inv(s) && s.backend.Uring? && cqes != [] && OpsOf(cqes) <= s.kernel
    ensures cqes[0].op in s.kernel && cqes[0].op.ctx in s.heap
    ensures Inv(Complete(s, cqes[0])) && Complete(s, cqes[0]).backend.Uring?
    ensures OpsOf(cqes[1..]) <= Complete(s, cqes[0]).kernel
  {
    OpsSplit(cqes, s.kernel);
    CompleteKeeps(s, cqes[0]);
    CompleteKernel(s, cqes[0]);
  }

  datatype Harvest = Harvest(state: State, events: seq<Event>, oom: bool)

  /** The loop over the completion queue: it stops at a poll completion once the event array is full. */
  function Completions(s: State, cqes: seq<Cqe>, events: seq<Event>): (h: Harvest)
    requires Inv(s) && s.backend.Uring? && OpsOf(cqes) <= s.kernel
    ensures Inv(h.state) && h.state.backend.Uring?
    ensures |events| <= MAX_EVENTS ==> |h.events| <= MAX_EVENTS
    decreases |cqes|
  {
    if cqes == [] || (cqes[0].op.kind.PollAdd? && |events| >= MAX_EVENTS) then Harvest(s, events, false)
    else
      CompletionStep(s, cqes);
      var q := cqes[0];
      var x := s.heap[q.op.ctx];
      var h := Completions(Complete(s, q), cqes[1..], events + Reported(x, q));
      h.(oom := h.oom || NoRoom(s, q))
  }

  /** The loop gets through all of `cqes`: the batch is never full when a poll completes. */
  ghost predicate Whole(s: State, cqes: seq<Cqe>, events: seq<Event>)
    requires Inv(s) && s.backend.Uring? && OpsOf(cqes) <= s.kernel
    decreases |cqes|
  {
    cqes == [] ||
    (!(cqes[0].op.kind.PollAdd? && |events| >= MAX_EVENTS) &&
     (CompletionStep(s, cqes);
      Whole(Complete(s, cqes[0]), cqes[1..], events + Reported(s.heap[cqes[0].op.ctx], cqes[0]))))
  }

  lemma Regroup(a: multiset<Op>, b: multiset<Op>, c: multiset<Op>)
    ensures a + (b + c) == a + b + c
  {
  }

  lemma {:induction false} OpsConcat(a: seq<Cqe>, b: seq<Cqe>)
    ensures OpsOf(a + b) == OpsOf(a) + OpsOf(b)
  {
    if a == [] {
      assert a + b == b;
    } else {
      ConcatHead(a, b);
      OpsConcat(a[1..], b);
      Regroup(multiset{a[0].op}, OpsOf(a[1..]), OpsOf(b));
    }
  }

  /** One turn of the loop, and then the rest. */
  lemma CompletionTurn(s: State, cqes: seq<Cqe>, events: seq<Event>, s': State, events': seq<Event>)
    requires Inv(s) && s.backend.Uring? && cqes != [] && OpsOf(cqes) <= s.kernel
    requires cqes[0].op.ctx in s.heap && s' == Complete(s, cqes[0]) && events' == events + Reported(s.heap[cqes[0].op.ctx], cqes[0])
    requires !(cqes[0].op.kind.PollAdd? && |events| >= MAX_EVENTS)
    ensures Inv(s') && s'.backend.Uring? && OpsOf(cqes[1..]) <= s'.kernel
    ensures var h := Completions(s', cqes[1..], events');
            Completions(s, cqes, events) == h.(oom := h.oom || NoRoom(s, cqes[0]))
    ensures Whole(s, cqes, events) <==> Whole(s', cqes[1..], events')
  {
    CompletionStep(s, cqes);
  }

  /** Context `c`, if it is still there, has the owner it had in `s0`, and is as much closing as it was. */
  predicate OwnerStays(s0: State, s: State, c: int) {
    c in s.heap ==> c in s0.heap && s.heap[c].owner == s0.heap[c].owner && s.heap[c].closing == s0.heap[c].closing
  }

  ghost predicate OwnersStay(s0: State, s: State) {
    forall c: int :: OwnerStays(s0, s, c)
  }

  lemma CompleteOwnerStays(s0: State, s: State, q: Cqe, c: int)
    requires q.op.ctx in s.heap && OwnerStays(s0, s, c)
    ensures OwnerStays(s0, Complete(s, q), c)
  {
  }

  lemma CompleteOwnersStay(s0: State, s: State, q: Cqe)
    requires q.op.ctx in s.heap && OwnersStay(s0, s)
    ensures OwnersStay(s0, Complete(s, q))
  {
    forall c: int ensures OwnerStays(s0, Complete(s, q), c) {
      assert OwnerStays(s0, s, c);
      CompleteOwnerStays(s0, s, q, c);
    }
  }

  /**
   What a completion reports, told from the state `s0` in which the wait began: nothing unless a poll of a watched
   context completed; the timer; or the socket, at fault after an error or a hang-up, and readable or writable as
   the kernel says if there was no error.
   */
  function Expected(s0: State, q: Cqe): seq<Event> {
    if q.op.kind != PollAdd || q.canceled || q.op.ctx !in s0.heap || s0.heap[q.op.ctx].closing then []
    else match s0.heap[q.op.ctx].owner
      case TimerOwner(t) => [TimerEvent(t)]
      case SocketOwner(_) =>
        if q.failed then [SocketEvent(q.op.ctx, false, false, true)]
        else [SocketEvent(q.op.ctx, q.readable, q.writable, q.hangup)]
  }

  function ExpectedAll(s0: State, cqes: seq<Cqe>): seq<Event> {
    if cqes == [] then [] else Expected(s0, cqes[0]) + ExpectedAll(s0, cqes[1..])
  }

  lemma ReportedIsExpected(s0: State, s: State, q: Cqe)
    requires q.op.ctx in s.heap && OwnersStay(s0, s)
    ensures Reported(s.heap[q.op.ctx], q) == Expected(s0, q)
  {
    assert OwnerStays(s0, s, q.op.ctx);
  }

  /**
   `n` completions are taken one by one, each from the kernel and into the batch; the next one is a poll for which the
   batch has no room.
   */
  ghost predicate TakenFrom(s0: State, kernel: multiset<Op>, cqes: seq<Cqe>, events: seq<Event>, n: nat, kernel': multiset<Op>, events': seq<Event>) {
    if n == 0 then kernel' == kernel && events' == events && (cqes == [] || (cqes[0].op.kind.PollAdd? && |events'| >= MAX_EVENTS))
    else
      && cqes != []
      && TakenFrom(s0, kernel - multiset{cqes[0].op}, cqes[1..], events + Expected(s0, cqes[0]), n - 1, kernel', events')
  }

  lemma TakenMore(s0: State, kernel: multiset<Op>, cqes: seq<Cqe>, events: seq<Event>, k: nat, kernel': multiset<Op>, events': seq<Event>)
    returns (n: nat)
    requires cqes != []
    requires TakenFrom(s0, kernel - multiset{cqes[0].op}, cqes[1..], events + Expected(s0, cqes[0]), k, kernel', events')
    ensures TakenFrom(s0, kernel, cqes, events, n, kernel', events')
  {
    n := k + 1;
  }

  lemma {:induction false} HarvestConsumes(s0: State, s: State, cqes: seq<Cqe>, events: seq<Event>, h: Harvest) returns (n: nat)
    requires Inv(s) && s.backend.Uring? && OpsOf(cqes) <= s.kernel && Completions(s, cqes, events) == h && OwnersStay(s0, s)
    ensures TakenFrom(s0, s.kernel, cqes, events, n, h.state.kernel, h.events)
    decreases |cqes|, 1
  {
    if cqes == [] || (cqes[0].op.kind.PollAdd? && |events| >= MAX_EVENTS) {
      n := 0;
    } else {
      var k := HarvestRest(s0, s, cqes, events, h);
      n := TakenMore(s0, s.kernel, cqes, events, k, h.state.kernel, h.events);
    }
  }

  lemma {:induction false} HarvestRest(s0: State, s: State, cqes: seq<Cqe>, events: seq<Event>, h: Harvest) returns (k: nat)
    requires Inv(s) && s.backend.Uring? && OpsOf(cqes) <= s.kernel && Completions(s, cqes, events) == h && OwnersStay(s0, s)
    requires cqes != [] && !(cqes[0].op.kind.PollAdd? && |events| >= MAX_EVENTS)
    ensures TakenFrom(s0, s.kernel - multiset{cqes[0].op}, cqes[1..], events + Expected(s0, cqes[0]), k, h.state.kernel, h.events)
    decreases |cqes|, 0
  {
    CompletionStep(s, cqes);
    var q := cqes[0];
    ReportedIsExpected(s0, s, q);
    CompleteOwnersStay(s0, s, q);
    var s', events' := Complete(s, q), events + Expected(s0, q);
    CompletionTurn(s, cqes, events, s', events');
    CompleteKernel(s, q);
    k := HarvestConsumes(s0, s', cqes[1..], events', Completions(s', cqes[1..], events'));
  }

  lemma OpsTaken(cqes: seq<Cqe>, k: nat, kernel: multiset<Op>)
    requires k < |cqes|
    ensures kernel - multiset{cqes[0].op} - OpsOf(cqes[1..][..k]) == kernel - OpsOf(cqes[..k + 1])
    ensures k + 1 < |cqes| ==> cqes[1..][k] == cqes[k + 1]
  {
    assert cqes[..k + 1][1..] == cqes[1..][..k];
  }

  lemma ExpectedTaken(s0: State, cqes: seq<Cqe>, k: nat, events: seq<Event>)
    requires k < |cqes|
    ensures events + Expected(s0, cqes[0]) + ExpectedAll(s0, cqes[1..][..k]) == events + ExpectedAll(s0, cqes[..k + 1])
  {
    assert cqes[..k + 1][1..] == cqes[1..][..k];
    Associate(events, Expected(s0, cqes[0]), ExpectedAll(s0, cqes[1..][..k]));
  }

  /** `n` completions were taken, with these effects on the kernel and the batch, and then there was no room. */
  ghost predicate Took(s0: State, kernel: multiset<Op>, cqes: seq<Cqe>, events: seq<Event>, n: nat, kernel': multiset<Op>, events': seq<Event>) {
    && n <= |cqes| && kernel' == kernel - OpsOf(cqes[..n]) && events' == events + ExpectedAll(s0, cqes[..n])
    && (n < |cqes| ==> cqes[n].op.kind.PollAdd? && |events'| >= MAX_EVENTS)
  }

  lemma TookOneMore(s0: State, kernel: multiset<Op>, cqes: seq<Cqe>, events: seq<Event>, n: nat, kernel': multiset<Op>, events': seq<Event>)
    requires cqes != [] && Took(s0, kernel - multiset{cqes[0].op}, cqes[1..], events + Expected(s0, cqes[0]), n, kernel', events')
    ensures Took(s0, kernel, cqes, events, n + 1, kernel', events')
  {
    OpsTaken(cqes, n, kernel);
    ExpectedTaken(s0, cqes, n, events);
  }

  lemma TookNone(s0: State, kernel: multiset<Op>, cqes: seq<Cqe>, events: seq<Event>)
    requires cqes == [] || (cqes[0].op.kind.PollAdd? && |events| >= MAX_EVENTS)
    ensures Took(s0, kernel, cqes, events, 0, kernel, events)
  {
    assert events + [] == events;
  }

  lemma TakenFirst(s0: State, kernel: multiset<Op>, cqes: seq<Cqe>, events: seq<Event>, n: nat, kernel': multiset<Op>, events': seq<Event>)
    requires TakenFrom(s0, kernel, cqes, events, n, kernel', events') && n > 0
    ensures cqes != [] && TakenFrom(s0, kernel - multiset{cqes[0].op}, cqes[1..], events + Expected(s0, cqes[0]), n - 1, kernel', events')
  {
  }

  lemma {:induction false} TakenMeans(s0: State, kernel: multiset<Op>, cqes: seq<Cqe>, events: seq<Event>, n: nat, kernel': multiset<Op>, events': seq<Event>)
    requires TakenFrom(s0, kernel, cqes, events, n, kernel', events')
    ensures Took(s0, kernel, cqes, events, n, kernel', events')
    decreases n
  {
    if n == 0 {
      TookNone(s0, kernel, cqes, events);
    } else {
      TakenFirst(s0, kernel, cqes, events, n, kernel', events');
      var rest, left, more := cqes[1..], kernel - multiset{cqes[0].op}, events + Expected(s0, cqes[0]);
      TakenMeans(s0, left, rest, more, n - 1, kernel', events');
      TookOneMore(s0, kernel, cqes, events, n - 1, kernel', events');
    }
  }

  /**
   The loop consumes exactly the completions before the one it stops at, reports for each of them what the state before
   the loop lets expect, and stops only when the batch is full.
   */
  lemma CompletionsConsume(s0: State, s: State, cqes: seq<Cqe>, events: seq<Event>) returns (n: nat)
    requires Inv(s) && s.backend.Uring? && OpsOf(cqes) <= s.kernel && OwnersStay(s0, s)
    ensures var h := Completions(s, cqes, events);
            && n <= |cqes| && h.state.kernel == s.kernel - OpsOf(cqes[..n]) && h.events == events + ExpectedAll(s0, cqes[..n])
            && (n < |cqes| ==> cqes[n].op.kind.PollAdd? && |h.events| >= MAX_EVENTS)
  {
    n := HarvestConsumes(s0, s, cqes, events, Completions(s, cqes, events));
    TakenMeans(s0, s.kernel, cqes, events, n, Completions(s, cqes, events).state.kernel, Completions(s, cqes, events).events);
  }

  lemma DrainOneOwnerStays(s0: State, s: State, ok: bool, c: int)
    requires s.rearm != [] && s.rearm[0] in s.heap && OwnerStays(s0, s, c)
    ensures OwnerStays(s0, DrainOne(s, ok), c)
  {
  }

  lemma {:induction false} DrainOwnersStay(s0: State, s: State, oks: seq<bool>)
    requires Inv(s) && s.backend.Uring? && |oks| <= |s.rearm| && OwnersStay(s0, s)
    ensures OwnersStay(s0, Drain(s, oks))
    decreases |oks|
  {
    if oks != [] {
      DrainOneKeeps(s, oks[0]);
      DrainOneHolds(s, oks[0]);
      forall c: int ensures OwnerStays(s0, DrainOne(s, oks[0]), c) {
        assert OwnerStays(s0, s, c);
        DrainOneOwnerStays(s0, s, oks[0], c);
      }
      DrainOwnersStay(s0, DrainOne(s, oks[0]), oks[1..]);
    }
  }

  /** After all of `a`, the loop goes on with `b` from where it is. */
  lemma {:induction false} AndThen(s: State, a: seq<Cqe>, b: seq<Cqe>, events: seq<Event>)
    requires Inv(s) && s.backend.Uring? && OpsOf(a + b) <= s.kernel && OpsOf(a) <= s.kernel && Whole(s, a, events)
    ensures var h := Completions(s, a, events);
            && OpsOf(b) <= h.state.kernel
            && var k := Completions(h.state, b, h.events);
               Completions(s, a + b, events) == k.(oom := h.oom || k.oom)
    ensures Whole(s, a + b, events) <==> Whole(Completions(s, a, events).state, b, Completions(s, a, events).events)
    decreases |a|
  {
    if a == [] {
      assert a + b == b;
    } else {
      var ab, q := a + b, a[0];
      ConcatHead(a, b);
      CompletionStep(s, a);
      var s', events' := Complete(s, q), events + Reported(s.heap[q.op.ctx], q);
      CompletionTurn(s, a, events, s', events');
      CompletionTurn(s, ab, events, s', events');
      AndThen(s', a[1..], b, events');
    }
  }

  /** What the kernel and the allocator answer during one call of event_backend_wait. */
  datatype Answers = UringAnswers(flushOk: bool, oks: seq<bool>, cqes: seq<Cqe>, waitOk: bool)
                   | EpollAnswers(waitOk: bool, ready: seq<Readiness>)

  datatype Readiness = Readiness(fd: int, readable: bool, writable: bool, fault: bool)

  /** The kernel reports only what is outstanding or registered. */
  ghost predicate Answerable(s: State, w: Answers)
    requires Inv(s)
  {
    match w
    case UringAnswers(flushOk, oks, cqes, _) =>
      s.backend.Uring? && (flushOk ==> |oks| == |s.rearm| && OpsOf(cqes) <= Drain(s, oks).kernel)
    case EpollAnswers(_, ready) =>
      s.backend.Epoll? && |ready| <= MAX_EVENTS && (forall i :: 0 <= i < |ready| ==> ready[i].fd in s.interest)
  }

  function ReadyEvent(s: State, r: Readiness): Event
    requires MapOk(s) && r.fd in s.interest
  {
    var c := s.interest[r.fd];
    if s.heap[c].owner.TimerOwner? then TimerEvent(s.heap[c].owner.timer)
    else SocketEvent(c, r.readable, r.writable, r.fault)
  }

  /** event_backend_wait: the new state, the batch, and whether the call succeeded. */
  function Wait(s: State, w: Answers): (r: (State, seq<Event>, bool))
    requires Inv(s) && Answerable(s, w)
    ensures Inv(r.0) && r.0.backend == s.backend && |r.1| <= MAX_EVENTS
  {
    match w
    case UringAnswers(flushOk, oks, cqes, waitOk) =>
      if !flushOk then (s, [], false)
      else
        var h := Completions(Drain(s, oks), cqes, []);
        (h.state, h.events, waitOk && !h.oom)
    case EpollAnswers(waitOk, ready) =>
      if !waitOk then (s, [], false)
      else (s, seq(|ready|, i requires 0 <= i < |ready| => ReadyEvent(s, ready[i])), true)
  }

  /** What epoll is expected to report for a descriptor that is ready. */
  function Readied(s: State, r: Readiness): Event
    requires MapOk(s) && r.fd in s.ctxMap
  {
    match s.heap[s.ctxMap[r.fd]].owner
    case TimerOwner(t) => TimerEvent(t)
    case SocketOwner(_) => SocketEvent(s.ctxMap[r.fd], r.readable, r.writable, r.fault)
  }

  /**
   The batch of a wait is told by the state before it: for io_uring, what the completions taken let expect, in their
   order; for epoll, one event for each descriptor that is ready.
   */
  lemma WaitReports(s: State, w: Answers) returns (n: nat)
    requires Inv(s) && Answerable(s, w)
    ensures w.UringAnswers? && w.flushOk ==>
              && n <= |w.cqes| && Wait(s, w).0.kernel == Drain(s, w.oks).kernel - OpsOf(w.cqes[..n])
              && Wait(s, w).1 == ExpectedAll(s, w.cqes[..n])
              && (n < |w.cqes| ==> w.cqes[n].op.kind.PollAdd? && |Wait(s, w).1| >= MAX_EVENTS)
    ensures w.EpollAnswers? && w.waitOk ==>
              && |Wait(s, w).1| == |w.ready|
              && (forall i :: 0 <= i < |w.ready| ==> w.ready[i].fd in s.ctxMap && Wait(s, w).1[i] == Readied(s, w.ready[i]))
              && Wait(s, w).0 == s && Wait(s, w).2
    ensures (w.EpollAnswers? && !w.waitOk) || (w.UringAnswers? && !w.flushOk) ==> Wait(s, w) == (s, [], false)
  {
    n := 0;
    if w.UringAnswers? && w.flushOk {
      DrainOwnersStay(s, s, w.oks);
      n := CompletionsConsume(s, Drain(s, w.oks), w.cqes, []);
      assert [] + ExpectedAll(s, w.cqes[..n]) == ExpectedAll(s, w.cqes[..n]);
    }
  }
}
