/** Batch safety: what handlers may do to the contexts and timers of the batch that is being dispatched. */
module EventLoopBatch {
  import opened Common
  import opened EventLoop
  import opened EventLoopInvariant
  import opened EventLoopRun

  /** A socket context that is allocated. */
  predicate Live(s: State, c: int) {
    c in s.heap && s.heap[c].owner.SocketOwner?
  }

  predicate Alive(s: State, e: Event) {
    match e
    case SocketEvent(c, _, _, _) => Live(s, c)
    case TimerEvent(t) => t in s.timers
  }

  predicate AllAlive(s: State, events: seq<Event>) {
    forall i :: 0 <= i < |events| ==> Alive(s, events[i])
  }

  /** A socket context that no handler can free: io_uring keeps it in the rearm queue, epoll in the map or deferred. */
  predicate Pinned(s: State, c: int) {
    Live(s, c) && (s.backend.Uring? ==> c in s.rearm)
  }

  predicate Ready(s: State, e: Event) {
    match e
    case SocketEvent(c, _, _, _) => Pinned(s, c)
    case TimerEvent(t) => t in s.timers
  }

  predicate AllReady(s: State, events: seq<Event>) {
    forall i :: 0 <= i < |events| ==> Ready(s, events[i])
  }

  /** io_uring: every registered context has a non-empty event mask. */
  predicate Masked(s: State) {
    s.backend.Uring? ==> forall c :: c in s.heap && !s.heap[c].closing ==> s.heap[c].mask != 0
  }

  /** A pinned context stays pinned, and a context that lost its socket does not get it back. */
  predicate KeepsPin(s: State, s': State, c: int) {
    Pinned(s, c) ==> Pinned(s', c) && (s.heap[c].owner == SocketOwner(None) ==> s'.heap[c].owner == SocketOwner(None))
  }

  lemma InQueueIsLive(s: State, c: int)
    requires ContextsOk(s) && c in s.rearm
    ensures c in s.heap
  {
    assert Owned(s, c);
  }

  /**
   What the back-end calls do to a context: the queue only grows, no owner is replaced (a socket may be
   forgotten), epoll frees no socket context, and a registered context has its old mask or the mask `m`.
   */
  predicate Evolves(s: State, s': State, c: int, m: nat) {
    && s'.backend == s.backend && s'.held == s.held
    && (c in s.rearm ==> c in s'.rearm)
    && (c in s.heap && c in s'.heap ==> s'.heap[c].owner == s.heap[c].owner || s'.heap[c].owner == Forget(s.heap[c].owner))
    && (s.backend.Epoll? && c in s.heap && s.heap[c].owner.SocketOwner? ==> c in s'.heap)
    && (c in s'.heap && !s'.heap[c].closing ==>
          s'.heap[c].mask == m || (c in s.heap && !s.heap[c].closing && s'.heap[c].mask == s.heap[c].mask))
  }

  lemma AddEvolves(s: State, id: int, owner: Owner, fd: int, mask: nat, ok: bool, c: int)
    requires id !in s.heap
    ensures Evolves(s, AddContext(s, id, owner, fd, mask, ok).0, c, mask)
  {
  }

  lemma ModifyEvolves(s: State, fd: int, mask: nat, allocOk: bool, ok: bool, c: int)
    requires MapOk(s)
    ensures Evolves(s, ModifySocket(s, fd, mask, allocOk, ok).0, c, mask)
  {
  }

  lemma UnmapEvolves(s: State, fd: int, owner: Owner, c: int)
    requires MapOk(s) && s.backend.Uring? && fd in s.ctxMap
    requires owner == s.heap[s.ctxMap[fd]].owner || owner == Forget(s.heap[s.ctxMap[fd]].owner)
    ensures Evolves(s, UringUnmap(s, fd, owner), c, 0)
    ensures c in UringUnmap(s, fd, owner).heap && !UringUnmap(s, fd, owner).heap[c].closing ==>
              c in s.heap && !s.heap[c].closing && UringUnmap(s, fd, owner).heap[c].mask == s.heap[c].mask
  {
  }

  lemma RemoveEvolves(s: State, fd: int, res: DelResult, c: int, m: nat)
    requires MapOk(s)
    ensures Evolves(s, RemoveSocket(s, fd, res).0, c, m)
  {
    if s.backend.Uring? && fd in s.ctxMap { UnmapEvolves(s, fd, Forget(s.heap[s.ctxMap[fd]].owner), c); }
  }

  lemma RemoveTimerEvolves(s: State, fd: int, res: DelResult, c: int, m: nat)
    requires MapOk(s) && (fd in s.ctxMap ==> s.heap[s.ctxMap[fd]].owner.TimerOwner?)
    ensures Evolves(s, RemoveTimerContext(s, fd, res).0, c, m)
  {
    if s.backend.Uring? && fd in s.ctxMap { UnmapEvolves(s, fd, s.heap[s.ctxMap[fd]].owner, c); }
  }

  function MaskOf(a: Action): nat {
    if a.AddSock? || a.ModSock? then a.mask else 1
  }

  lemma UnwatchEvolves(s: State, t: int, stopOk: bool, res: DelResult, c: int)
    requires Inv(s) && t in s.timers
    ensures Evolves(s, RemoveTimer(s, t, stopOk, res).0, c, 1)
  {
    if t in s.active {
      assert TimerOwned(s, t);
      RemoveTimerEvolves(s, s.timers[t].tfd, res, c, 1);
    }
  }

  lemma ApplyEvolves(s: State, a: Action, c: int)
    requires Inv(s) && Legal(s, a)
    ensures Evolves(s, Apply(s, a).0, c, MaskOf(a))
  {
    match a {
      case AddSock(id, sock, fd, mask, ok) => AddEvolves(s, id, SocketOwner(Some(sock)), fd, mask, ok, c);
      case ModSock(fd, mask, allocOk, ok) => ModifyEvolves(s, fd, mask, allocOk, ok, c);
      case DelSock(fd, res) => RemoveEvolves(s, fd, res, c, 1);
      case WatchTimer(id, t, ok) => AddEvolves(s, id, TimerOwner(t), s.timers[t].tfd, 1, ok, c);
      case UnwatchTimer(t, stopOk, res) => UnwatchEvolves(s, t, stopOk, res, c);
      case _ =>
    }
  }

  lemma EvolvingKeepsPin(s: State, s': State, c: int, m: nat)
    requires ContextsOk(s') && Evolves(s, s', c, m)
    ensures KeepsPin(s, s', c)
  {
    if s.backend.Uring? && c in s.rearm { InQueueIsLive(s', c); }
  }

  /** Handlers cannot free a context of the batch, nor give it a socket back. */
  lemma ApplyKeepsPin(s: State, a: Action, c: int)
    requires Inv(s) && Legal(s, a)
    ensures KeepsPin(s, Apply(s, a).0, c)
  {
    ApplyKeeps(s, a);
    ApplyEvolves(s, a, c);
    EvolvingKeepsPin(s, Apply(s, a).0, c, MaskOf(a));
  }

  lemma ApplyKeepsMasks(s: State, a: Action)
    requires Inv(s) && Masked(s) && Legal(s, a) && MaskOf(a) != 0
    ensures Masked(Apply(s, a).0)
  {
    var s' := Apply(s, a).0;
    forall c | c in s'.heap && !s'.heap[c].closing && s'.backend.Uring? ensures s'.heap[c].mask != 0 {
      ApplyEvolves(s, a, c);
    }
  }

  // ---------------------------------------------------------------- the batch that wait returns

  predicate EvolvesQuietly(s: State, s': State, c: int) {
    && Evolves(s, s', c, 0) && s'.timers == s.timers
    && (c in s'.heap ==> c in s.heap && s'.heap[c].mask == s.heap[c].mask && s'.heap[c].closing == s.heap[c].closing)
  }

  lemma FinishEvolves(s: State, op: Op, c: int)
    requires op.ctx in s.heap && s.backend.Uring?
    ensures EvolvesQuietly(s, FinishOp(s, op), c)
  {
  }

  lemma FinishAndQueueEvolves(s: State, op: Op, c: int)
    requires op.ctx in s.heap && s.backend.Uring?
    ensures EvolvesQuietly(s, FinishAndQueue(s, op), c)
  {
  }

  lemma CompleteEvolves(s: State, q: Cqe, c: int)
    requires q.op.ctx in s.heap && s.backend.Uring?
    ensures Evolves(s, Complete(s, q), c, 0)
    ensures c in Complete(s, q).heap ==> c in s.heap && Complete(s, q).heap[c].mask == s.heap[c].mask
                                         && Complete(s, q).heap[c].closing == s.heap[c].closing
    ensures Complete(s, q).timers == s.timers
  {
    FinishEvolves(s, q.op, c);
    FinishAndQueueEvolves(s, q.op, c);
  }

  /** An event is reported only for a context that the completion leaves pinned, unless its mask is empty. */
  lemma CompletionPins(s: State, q: Cqe)
    requires Inv(s) && s.backend.Uring? && q.op in s.kernel && q.op.ctx in s.heap
    requires EventOf(s.heap[q.op.ctx], q).Some?
    requires !NoRoom(s, q)
    ensures var e := EventOf(s.heap[q.op.ctx], q).value;
            Ready(Complete(s, q), e) <==> (e.TimerEvent? || s.heap[q.op.ctx].mask != 0)
  {
    var c := q.op.ctx;
    var x := s.heap[c];
    assert Owned(s, c);
    OutstandingIsLive(s, q.op);
    if x.owner.TimerOwner? {
      assert InMap(s, c);
      assert TimerEntryOk(s, x.fd, s.heap[s.ctxMap[x.fd]].owner);
    } else {
      assert !x.queued;
    }
  }

  /** No mask changes while the loop waits, and no context is new. */
  predicate KeepsMask(s: State, s': State, c: int) {
    c in s'.heap ==> c in s.heap && s'.heap[c].mask == s.heap[c].mask && s'.heap[c].closing == s.heap[c].closing
  }

  lemma {:induction false} CompletionsKeepMask(s: State, cqes: seq<Cqe>, events: seq<Event>, c: int)
    requires Inv(s) && s.backend.Uring? && OpsOf(cqes) <= s.kernel
    ensures KeepsMask(s, Completions(s, cqes, events).state, c)
    decreases |cqes|
  {
    if cqes == [] || (cqes[0].op.kind.PollAdd? && |events| >= MAX_EVENTS) {
    } else {
      CompletionStep(s, cqes);
      var q := cqes[0];
      CompleteEvolves(s, q, c);
      CompletionsKeepMask(Complete(s, q), cqes[1..], events + Reported(s.heap[q.op.ctx], q), c);
    }
  }

  lemma DrainOneKeepsMask(s: State, ok: bool, c: int)
    requires s.rearm != [] && s.rearm[0] in s.heap
    ensures KeepsMask(s, DrainOne(s, ok), c)
  {
  }

  lemma {:induction false} DrainKeepsMask(s: State, oks: seq<bool>, c: int)
    requires Inv(s) && s.backend.Uring? && |oks| <= |s.rearm|
    ensures KeepsMask(s, Drain(s, oks), c)
    decreases |oks|
  {
    if oks != [] {
      DrainOneKeeps(s, oks[0]);
      DrainOneHolds(s, oks[0]);
      DrainOneKeepsMask(s, oks[0], c);
      DrainKeepsMask(DrainOne(s, oks[0]), oks[1..], c);
    }
  }

  lemma WaitKeepsMask(s: State, w: Answers, c: int)
    requires Inv(s) && Answerable(s, w)
    ensures KeepsMask(s, Wait(s, w).0, c)
  {
    if w.UringAnswers? && w.flushOk {
      DrainKeepsMask(s, w.oks, c);
      CompletionsKeepMask(Drain(s, w.oks), w.cqes, [], c);
    }
  }

  /** A reported context is still watched and not polled; it is in the rearm queue exactly when it has a mask. */
  predicate Settled(s: State, e: Event) {
    match e
    case TimerEvent(t) => t in s.timers
    case SocketEvent(c, _, _, _) =>
      && c in s.heap && s.heap[c].owner.SocketOwner? && !s.heap[c].armed && !s.heap[c].closing
      && (c in s.rearm <==> s.heap[c].mask != 0)
  }

  predicate AllSettled(s: State, events: seq<Event>) {
    forall i :: 0 <= i < |events| ==> Settled(s, events[i])
  }

  lemma CompletionSettles(s: State, q: Cqe)
    requires Inv(s) && s.backend.Uring? && q.op in s.kernel && q.op.ctx in s.heap
    requires EventOf(s.heap[q.op.ctx], q).Some? && !NoRoom(s, q)
    ensures Settled(Complete(s, q), EventOf(s.heap[q.op.ctx], q).value)
  {
    var c := q.op.ctx;
    var x := s.heap[c];
    assert Owned(s, c);
    OutstandingIsLive(s, q.op);
    if x.owner.TimerOwner? {
      assert InMap(s, c);
      assert TimerEntryOk(s, x.fd, s.heap[s.ctxMap[x.fd]].owner);
    }
  }

  lemma CompletionKeepsSettled(s: State, q: Cqe, e: Event)
    requires Inv(s) && s.backend.Uring? && q.op in s.kernel && q.op.ctx in s.heap && Settled(s, e)
    ensures Settled(Complete(s, q), e)
  {
    CompleteEvolves(s, q, q.op.ctx);
    if e.SocketEvent? {
      assert Owned(s, e.ctx);
      OutstandingIsLive(s, q.op);
    }
  }

  lemma CompletionKeepsAllSettled(s: State, q: Cqe, events: seq<Event>)
    requires Inv(s) && s.backend.Uring? && q.op in s.kernel && q.op.ctx in s.heap && AllSettled(s, events)
    requires !NoRoom(s, q)
    ensures AllSettled(Complete(s, q), events + Reported(s.heap[q.op.ctx], q))
  {
    forall i | 0 <= i < |events| ensures Settled(Complete(s, q), events[i]) { CompletionKeepsSettled(s, q, events[i]); }
    if EventOf(s.heap[q.op.ctx], q).Some? { CompletionSettles(s, q); }
  }

  lemma {:induction false} CompletionsSettle(s: State, cqes: seq<Cqe>, events: seq<Event>)
    requires Inv(s) && s.backend.Uring? && OpsOf(cqes) <= s.kernel && AllSettled(s, events)
    ensures var h := Completions(s, cqes, events); !h.oom ==> AllSettled(h.state, h.events)
    decreases |cqes|
  {
    if cqes == [] || (cqes[0].op.kind.PollAdd? && |events| >= MAX_EVENTS) {
    } else {
      CompletionStep(s, cqes);
      var q := cqes[0];
      var x := s.heap[q.op.ctx];
      if !NoRoom(s, q) {
        CompletionKeepsAllSettled(s, q, events);
        CompletionsSettle(Complete(s, q), cqes[1..], events + Reported(x, q));
      }
    }
  }

  lemma EpollReady(s: State, r: Readiness)
    requires Inv(s) && s.backend.Epoll? && r.fd in s.interest
    ensures Ready(s, ReadyEvent(s, r))
  {
    var c := s.interest[r.fd];
    assert Owned(s, c) && TimerEntryOk(s, r.fd, s.heap[s.ctxMap[r.fd]].owner);
  }

  /** io_uring: the event is not that of a socket whose mask is empty. */
  predicate Loud(s: State, e: Event) {
    e.SocketEvent? && s.backend.Uring? ==> e.ctx in s.heap && s.heap[e.ctx].mask != 0
  }

  /** Every event of a successful wait refers to something that is allocated. */
  lemma WaitIsAlive(s: State, w: Answers)
    requires Inv(s) && Answerable(s, w) && Wait(s, w).2
    ensures AllAlive(Wait(s, w).0, Wait(s, w).1)
  {
    match w
    case UringAnswers(flushOk, oks, cqes, waitOk) =>
      var (s', events, _) := Wait(s, w);
      CompletionsSettle(Drain(s, oks), cqes, []);
      forall i | 0 <= i < |events| ensures Alive(s', events[i]) { assert Settled(s', events[i]); }
    case EpollAnswers(waitOk, ready) =>
      forall i | 0 <= i < |ready| ensures Alive(s, ReadyEvent(s, ready[i])) { EpollReady(s, ready[i]); }
  }

  /** An event of a successful wait is pinned exactly when its context had a mask before the wait. */
  lemma WaitReadyIff(s: State, w: Answers, i: nat)
    requires Inv(s) && Answerable(s, w) && Wait(s, w).2 && i < |Wait(s, w).1|
    ensures var (s', events, _) := Wait(s, w); Ready(s', events[i]) <==> Loud(s, events[i])
  {
    match w
    case UringAnswers(flushOk, oks, cqes, waitOk) =>
      var (s', events, _) := Wait(s, w);
      CompletionsSettle(Drain(s, oks), cqes, []);
      assert Settled(s', events[i]);
      if events[i].SocketEvent? { WaitKeepsMask(s, w, events[i].ctx); }
    case EpollAnswers(waitOk, ready) => EpollReady(s, ready[i]);
  }

  /** Every reported context is registered, so where registered masks are not empty the whole batch is pinned. */
  lemma WaitIsReady(s: State, w: Answers)
    requires Inv(s) && Masked(s) && Answerable(s, w)
    ensures var r := Wait(s, w); Masked(r.0) && (r.2 ==> AllReady(r.0, r.1))
  {
    var (s', events, ok) := Wait(s, w);
    forall c | c in s'.heap && !s'.heap[c].closing && s'.backend.Uring? ensures s'.heap[c].mask != 0 { WaitKeepsMask(s, w, c); }
    if ok {
      forall i | 0 <= i < |events| ensures Ready(s', events[i]) {
        WaitReadyIff(s, w, i);
        if w.UringAnswers? {
          CompletionsSettle(Drain(s, w.oks), w.cqes, []);
          assert Settled(s', events[i]);
          if events[i].SocketEvent? { WaitKeepsMask(s, w, events[i].ctx); }
        }
      }
    }
  }
}
