/** EventLoop_finalize and event_backend_destroy: every context is freed exactly once, or exactly the stuck ones stay. */
module EventLoopTeardown {
  import opened Common
  import opened EventLoop
  import opened EventLoopInvariant
  import opened EventLoopRun
  import EventLoopSafety

  /**
   The reference equation alone.  Teardown marks mapped contexts as closing and may leave the context of a
   released timer in the map, so the flags of the running loop no longer apply.
   */
  predicate Balanced(s: State, c: int) {
    if c in s.heap then
      && s.heap[c].refs == Bit(InMap(s, c)) + s.heap[c].pending + Bit(c in s.rearm) + Bit(c in s.deferred)
      && s.heap[c].refs >= 1
      && s.heap[c].pending == OpCount(s.kernel, c)
    else OpCount(s.kernel, c) == 0 && c !in s.rearm && c !in s.deferred
  }

  predicate EntriesOk(s: State) {
    forall fd :: fd in s.ctxMap ==> 0 <= fd < FD_LIMIT && s.ctxMap[fd] in s.heap && s.heap[s.ctxMap[fd]].fd == fd
  }

  ghost predicate InBalance(s: State) {
    && (forall c: int :: Balanced(s, c))
    && EntriesOk(s)
    && NoRepeats(s.rearm) && NoRepeats(s.deferred)
    && s.pendingTotal == |s.kernel|
  }

  lemma RunningIsBalanced(s: State)
    requires ContextsOk(s)
    ensures InBalance(s)
  {
    forall c: int ensures Balanced(s, c) { assert Owned(s, c); }
  }

  /** `s` and `s'` agree on what the balance of `d` depends on. */
  predicate SameBalance(s: State, s': State, d: int) {
    && (d in s'.heap <==> d in s.heap)
    && (d in s.heap ==> s'.heap[d].refs == s.heap[d].refs && s'.heap[d].pending == s.heap[d].pending
                        && (InMap(s', d) <==> InMap(s, d)))
    && OpCount(s'.kernel, d) == OpCount(s.kernel, d)
    && (d in s'.rearm <==> d in s.rearm)
    && (d in s'.deferred <==> d in s.deferred)
  }

  lemma BalanceLocally(s: State, s': State, c: int)
    requires forall d: int :: Balanced(s, d)
    requires forall d: int :: d != c ==> SameBalance(s, s', d)
    requires Balanced(s', c)
    ensures forall d: int :: Balanced(s', d)
  {
    forall d: int ensures Balanced(s', d) {
      if d != c { assert Balanced(s, d) && SameBalance(s, s', d); }
    }
  }

  // ---------------------------------------------------------------- single steps

  lemma SubmitBalances(s: State, kind: OpKind, c: int)
    requires InBalance(s) && c in s.heap
    ensures InBalance(Submit(s, kind, c))
  {
    assert Balanced(s, c);
    BalanceLocally(s, Submit(s, kind, c), c);
  }

  lemma FinishSame(s: State, op: Op, d: int)
    requires op in s.kernel && op.ctx in s.heap && d != op.ctx
    ensures SameBalance(s, FinishOp(s, op), d)
  {
    WithoutOp(s.kernel, op, d);
  }

  lemma FinishBalancesAt(s: State, op: Op)
    requires op in s.kernel && op.ctx in s.heap && Balanced(s, op.ctx)
    ensures Balanced(FinishOp(s, op), op.ctx)
  {
    WithoutOp(s.kernel, op, op.ctx);
  }

  lemma FinishBalances(s: State, op: Op)
    requires InBalance(s) && op in s.kernel
    ensures op.ctx in s.heap && InBalance(FinishOp(s, op))
  {
    var c := op.ctx;
    assert Balanced(s, c);
    WithoutOp(s.kernel, op, c);
    assert op.ctx in s.heap;
    FinishBalancesAt(s, op);
    forall d | d != c ensures SameBalance(s, FinishOp(s, op), d) { FinishSame(s, op, d); }
    BalanceLocally(s, FinishOp(s, op), c);
  }

  /** Phase 4 releases the queue's reference; the flags no longer matter. */
  function DropQueued(s: State): State
    requires s.rearm != [] && s.rearm[0] in s.heap
  {
    Release(s.(rearm := s.rearm[1..]), s.rearm[0])
  }

  lemma DropQueuedBalances(s: State)
    requires InBalance(s) && s.rearm != []
    ensures s.rearm[0] in s.heap && InBalance(DropQueued(s))
  {
    assert Balanced(s, s.rearm[0]);
    QueueTail(s.rearm);
    BalanceLocally(s, DropQueued(s), s.rearm[0]);
  }

  /** Phase 5 releases the map's reference. */
  function DropEntry(s: State, fd: int): State
    requires fd in s.ctxMap && s.ctxMap[fd] in s.heap
  {
    Release(s.(ctxMap := s.ctxMap - {fd}), s.ctxMap[fd])
  }

  lemma DropEntryBalances(s: State, fd: int)
    requires InBalance(s) && fd in s.ctxMap
    ensures InBalance(DropEntry(s, fd))
  {
    assert Balanced(s, s.ctxMap[fd]);
    BalanceLocally(s, DropEntry(s, fd), s.ctxMap[fd]);
  }

  // ---------------------------------------------------------------- the five phases

  /** Phase 1: every mapped context is marked as closing. */
  function MarkClosing(s: State): State {
    s.(heap := map c | c in s.heap :: if InMap(s, c) then s.heap[c].(closing := true) else s.heap[c])
  }

  lemma MarkClosingBalances(s: State)
    requires InBalance(s)
    ensures InBalance(MarkClosing(s))
  {
    forall c: int ensures Balanced(MarkClosing(s), c) { assert Balanced(s, c); }
  }

  /** Phase 2: armed polls are cancelled where a submission entry is free. */
  function CancelPolls(s: State, fd: nat, ok: int -> bool): (s': State)
    requires InBalance(s) && fd <= FD_LIMIT
    ensures InBalance(s') && s'.rearm == s.rearm && s'.deferred == s.deferred && s'.ctxMap == s.ctxMap
    decreases FD_LIMIT - fd
  {
    if fd == FD_LIMIT then s
    else if fd in s.ctxMap && s.heap[s.ctxMap[fd]].armed && ok(fd) then
      SubmitBalances(s, PollRemove, s.ctxMap[fd]);
      CancelPolls(Submit(s, PollRemove, s.ctxMap[fd]), fd + 1, ok)
    else CancelPolls(s, fd + 1, ok)
  }

  lemma FinishKernel(s: State, op: Op)
    requires op.ctx in s.heap
    ensures FinishOp(s, op).kernel == s.kernel - multiset{op}
    ensures FinishOp(s, op).rearm == s.rearm && FinishOp(s, op).deferred == s.deferred && FinishOp(s, op).ctxMap == s.ctxMap
  {
  }

  lemma HeadOutstanding(ops: seq<Op>, kernel: multiset<Op>)
    requires ops != [] && multiset(ops) <= kernel
    ensures ops[0] in kernel && multiset(ops[1..]) <= kernel - multiset{ops[0]}
    ensures kernel - multiset(ops) == kernel - multiset{ops[0]} - multiset(ops[1..])
  {
    assert ops == [ops[0]] + ops[1..];
  }

  /** Phase 3: completions arrive in any order, and the drain may stop early. */
  function DrainCompletions(s: State, ops: seq<Op>): (s': State)
    requires InBalance(s) && multiset(ops) <= s.kernel
    ensures InBalance(s') && s'.kernel == s.kernel - multiset(ops)
    ensures s'.rearm == s.rearm && s'.deferred == s.deferred && s'.ctxMap == s.ctxMap
    decreases |ops|
  {
    if ops == [] then s
    else
      HeadOutstanding(ops, s.kernel);
      FinishBalances(s, ops[0]);
      FinishKernel(s, ops[0]);
      DrainCompletions(FinishOp(s, ops[0]), ops[1..])
  }

  function DropAllQueued(s: State): (s': State)
    requires InBalance(s)
    ensures InBalance(s') && s'.rearm == [] && s'.kernel == s.kernel && s'.deferred == s.deferred
    decreases |s.rearm|
  {
    if s.rearm == [] then s else DropQueuedBalances(s); DropAllQueued(DropQueued(s))
  }

  function DropAllEntries(s: State, fd: nat): (s': State)
    requires InBalance(s) && fd <= FD_LIMIT && (forall f :: f in s.ctxMap ==> f >= fd)
    ensures InBalance(s') && s'.ctxMap == map[] && s'.kernel == s.kernel
    ensures s'.rearm == s.rearm && s'.deferred == s.deferred
    decreases FD_LIMIT - fd
  {
    if fd == FD_LIMIT then MapEmptyOrNot(s.ctxMap); s
    else if fd in s.ctxMap then
      DropEntryBalances(s, fd);
      DropAllEntries(DropEntry(s, fd), fd + 1)
    else DropAllEntries(s, fd + 1)
  }

  // ---------------------------------------------------------------- the finalizer

  predicate ActiveAreLive(s: State) {
    NoRepeats(s.active) && forall i :: 0 <= i < |s.active| ==> s.active[i] in s.timers
  }

  /** The loop gives up its reference on the first active timer. */
  function Forsake(s: State): State
    requires s.active != [] && s.active[0] in s.timers
  {
    var t := s.active[0];
    ReleaseTimer(s.(timers := s.timers[t := s.timers[t].(attached := false)], active := s.active[1..]), t)
  }

  lemma ForsakeKeeps(s: State)
    requires ContextsOk(s) && s.active != [] && s.active[0] in s.timers
    ensures ContextsOk(Forsake(s))
  {
    ContextsFrame(s, Forsake(s));
  }

  lemma ForsakeActive(s: State)
    requires ActiveAreLive(s) && s.active != []
    ensures ActiveAreLive(Forsake(s)) && Forsake(s).active == s.active[1..] && Forsake(s).deferred == s.deferred
  {
    var s' := Forsake(s);
    forall i | 0 <= i < |s'.active| ensures s'.active[i] in s'.timers {
      assert s.active[i + 1] in s.timers && s.active[i + 1] != s.active[0];
    }
  }

  /** One active timer is stopped and released, whether or not the back end let go of its context. */
  function DropTimer(s: State, res: DelResult): (s': State)
    requires ContextsOk(s) && ActiveAreLive(s) && s.active != []
    ensures ContextsOk(s') && ActiveAreLive(s') && s'.active == s.active[1..] && s'.deferred == s.deferred
  {
    var fd := s.timers[s.active[0]].tfd;
    RemoveTimerContextKeeps(s, fd, res);
    RemoveTimerContextTouches(s, fd, res);
    TimerContextDeferred(s, fd, res);
    var s1 := RemoveTimerContext(s, fd, res).0;
    ForsakeKeeps(s1);
    ForsakeActive(s1);
    Forsake(s1)
  }

  lemma TimerContextDeferred(s: State, fd: int, res: DelResult)
    requires MapOk(s)
    ensures RemoveTimerContext(s, fd, res).0.deferred == s.deferred
  {
  }

  function DropTimers(s: State, res: seq<DelResult>): (s': State)
    requires ContextsOk(s) && ActiveAreLive(s) && |res| == |s.active|
    ensures ContextsOk(s') && s'.active == [] && s'.deferred == s.deferred
    decreases |res|
  {
    if res == [] then s
    else DropTimers(DropTimer(s, res[0]), res[1..])
  }

  /** The state in which the completion drain starts. */
  function BeforeDrain(s: State, res: seq<DelResult>, ok: int -> bool): (s': State)
    requires Inv(s) && |res| == |s.active|
    ensures InBalance(s') && s'.deferred == []
  {
    var s1 := EventLoopSafety.Flush(s);
    assert ActiveAreLive(s1) by {
      forall i | 0 <= i < |s1.active| ensures s1.active[i] in s1.timers { assert TimerOwned(s1, s1.active[i]); }
    }
    var s2 := DropTimers(s1, res);
    RunningIsBalanced(s2);
    MarkClosingBalances(s2);
    CancelPolls(MarkClosing(s2), 0, ok)
  }

  /** EventLoop_finalize and event_backend_destroy; `ops` are the completions that the drain saw. */
  function Destroy(s: State, res: seq<DelResult>, ok: int -> bool, ops: seq<Op>): (s': State)
    requires Inv(s) && |res| == |s.active| && multiset(ops) <= BeforeDrain(s, res, ok).kernel
    ensures InBalance(s') && s'.rearm == [] && s'.ctxMap == map[] && s'.deferred == []
    ensures s'.kernel == BeforeDrain(s, res, ok).kernel - multiset(ops)
  {
    var s1 := DrainCompletions(BeforeDrain(s, res, ok), ops);
    DropAllEntries(DropAllQueued(s1), 0)
  }

  /**
   After teardown exactly the contexts with an operation that never completed are still allocated; so when the
   drain reaches zero nothing is left, and every context has been released as often as it was retained.
   */
  lemma TeardownFrees(s: State, res: seq<DelResult>, ok: int -> bool, ops: seq<Op>)
    requires Inv(s) && |res| == |s.active| && multiset(ops) <= BeforeDrain(s, res, ok).kernel
    ensures var s' := Destroy(s, res, ok, ops);
            && (forall c: int :: c in s'.heap <==> OpCount(s'.kernel, c) > 0)
            && (s'.heap == map[] <==> s'.pendingTotal == 0)
  {
    var s' := Destroy(s, res, ok, ops);
    forall c: int ensures c in s'.heap <==> OpCount(s'.kernel, c) > 0 { assert Balanced(s', c); }
    MapEmptyOrNot(s'.heap);
    if s'.heap == map[] && s'.kernel != multiset{} {
      NonEmptyKernel(s'.kernel);
    }
  }

  lemma NonEmptyKernel(kernel: multiset<Op>)
    requires kernel != multiset{}
    ensures exists c: int :: OpCount(kernel, c) > 0
  {
    var op :| op in kernel;
    match op.kind
    case PollAdd => assert op == Op(PollAdd, op.ctx) && OpCount(kernel, op.ctx) > 0;
    case PollUpdate => assert op == Op(PollUpdate, op.ctx) && OpCount(kernel, op.ctx) > 0;
    case PollRemove => assert op == Op(PollRemove, op.ctx) && OpCount(kernel, op.ctx) > 0;
  }
}
