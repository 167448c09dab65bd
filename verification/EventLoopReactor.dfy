/** The reactor's code, field by field and loop by loop, refining the transitions of the state machine. */
module EventLoopReactor {
  import opened Common
  import opened EventLoop
  import opened EventLoopInvariant
  import opened EventLoopRun
  import opened EventLoopSafety

  lemma NextSlice(cqes: seq<Cqe>, i: nat)
    requires i < |cqes|
    ensures cqes[..i + 1] == cqes[..i] + [cqes[i]]
  {
  }

  /** The completions up to the `i`-th and that one are outstanding together. */
  lemma NextOps(cqes: seq<Cqe>, i: nat, kernel: multiset<Op>)
    requires i < |cqes| && OpsOf(cqes) <= kernel
    ensures cqes[..i + 1] == cqes[..i] + [cqes[i]] && OpsOf(cqes[..i] + [cqes[i]]) <= kernel
  {
    NextSlice(cqes, i);
    var taken := PrefixFits(cqes, i + 1, kernel);
  }

  /** The loop over a single completion. */
  lemma LastCompletion(now: State, q: Cqe, events: seq<Event>)
    requires Inv(now) && now.backend.Uring? && OpsOf([q]) <= now.kernel && (q.op.kind.PollAdd? ==> |events| < MAX_EVENTS)
    ensures q.op.ctx in now.heap && now.heap[q.op.ctx].refs >= 1 && Whole(now, [q], events)
    ensures var x := now.heap[q.op.ctx];
            Completions(now, [q], events) == Harvest(Complete(now, q), events + Reported(x, q), NoRoom(now, q))
  {
    CompletionStep(now, [q]);
    assert Owned(now, q.op.ctx);
    CompletionTurn(now, [q], events, Complete(now, q), events + Reported(now.heap[q.op.ctx], q));
    assert [q][1..] == [];
  }

  lemma CompleteCases(s: State, q: Cqe)
    requires q.op.ctx in s.heap
    ensures Requeues(s.heap[q.op.ctx], q.op) && CanQueue(s, q.allocOk) ==> Complete(s, q) == FinishAndQueue(s, q.op)
    ensures !(Requeues(s.heap[q.op.ctx], q.op) && CanQueue(s, q.allocOk)) ==> Complete(s, q) == FinishOp(s, q.op)
  {
  }

  /** From `start` the loop has consumed all of `done` and is in `now`. */
  ghost predicate Reached(start: State, done: seq<Cqe>, now: State, events: seq<Event>, oom: bool) {
    && Inv(start) && start.backend.Uring? && OpsOf(done) <= start.kernel
    && Whole(start, done, []) && Completions(start, done, []) == Harvest(now, events, oom)
  }

  lemma NextIsLive(start: State, done: seq<Cqe>, q: Cqe, now: State, events: seq<Event>, oom: bool)
    requires Reached(start, done, now, events, oom) && OpsOf(done + [q]) <= start.kernel
    requires q.op.kind.PollAdd? ==> |events| < MAX_EVENTS
    ensures q.op.ctx in now.heap && now.heap[q.op.ctx].refs >= 1
  {
    NextCompletion(start, done, q, now, events, oom);
  }

  lemma NextHarvest(start: State, done: seq<Cqe>, q: Cqe, now: State, events: seq<Event>, oom: bool, next: State, events': seq<Event>, oom': bool)
    requires Reached(start, done, now, events, oom) && OpsOf(done + [q]) <= start.kernel
    requires (q.op.kind.PollAdd? ==> |events| < MAX_EVENTS) && q.op.ctx in now.heap
    requires next == Complete(now, q) && events' == events + Reported(now.heap[q.op.ctx], q)
    requires oom' <==> oom || NoRoom(now, q)
    ensures Reached(start, done + [q], next, events', oom')
  {
    NextCompletion(start, done, q, now, events, oom);
  }

  /** One more completion is consumed from where the loop is. */
  lemma NextCompletion(start: State, done: seq<Cqe>, q: Cqe, now: State, events: seq<Event>, oom: bool)
    requires Inv(start) && start.backend.Uring? && OpsOf(done) <= start.kernel && OpsOf(done + [q]) <= start.kernel
    requires Whole(start, done, []) && Completions(start, done, []) == Harvest(now, events, oom)
    requires q.op.kind.PollAdd? ==> |events| < MAX_EVENTS
    ensures q.op.ctx in now.heap && now.heap[q.op.ctx].refs >= 1 && Whole(start, done + [q], [])
    ensures var x := now.heap[q.op.ctx];
            Completions(start, done + [q], []) == Harvest(Complete(now, q), events + Reported(x, q), oom || NoRoom(now, q))
  {
    AndThen(start, done, [q], []);
    LastCompletion(now, q, events);
  }

  class Reactor {
    const backend: Backend
    var heap: map<int, Context>
    var ctxMap: map<int, int>
    var rearmPending: array<int>
    var rearmCount: nat
    var deferPending: seq<int>
    var kernel: multiset<Op>
    var pendingTotal: int
    var interest: map<int, int>
    var timers: map<int, TimerObject>
    var active: seq<int>
    var held: multiset<int>
    var closed: set<int>

    ghost predicate Valid()
      reads this, rearmPending
    {
      rearmCount <= rearmPending.Length && MapOk(View())
    }

    ghost function View(): State
      reads this, rearmPending
      requires rearmCount <= rearmPending.Length
    {
      State(backend, heap, ctxMap, rearmPending[..rearmCount], rearmPending.Length, deferPending, kernel, pendingTotal, interest,
            timers, active, held, closed)
    }

    constructor (backend: Backend)
      ensures Valid() && View() == Initial(backend) && fresh(rearmPending)
    {
      this.backend := backend;
      heap, ctxMap, deferPending, kernel, pendingTotal := map[], map[], [], multiset{}, 0;
      interest, timers, active, held, closed := map[], map[], [], multiset{}, {};
      rearmPending, rearmCount := new int[64], 0;
      new;
      assert View() == Initial(backend);
    }

    method RetainCtx(c: int)
      requires c in heap
      modifies this`heap
      ensures heap == old(heap)[c := old(heap)[c].(refs := old(heap)[c].refs + 1)]
    {
      heap := heap[c := heap[c].(refs := heap[c].refs + 1)];
    }

    method ReleaseCtx(c: int)
      requires c in heap
      modifies this`heap
      ensures heap == if old(heap)[c].refs <= 1 then old(heap) - {c}
                      else old(heap)[c := old(heap)[c].(refs := old(heap)[c].refs - 1)]
    {
      if heap[c].refs <= 1 {
        heap := heap - {c};
      } else {
        heap := heap[c := heap[c].(refs := heap[c].refs - 1)];
      }
    }

    /** A prepared submission entry owns a reference until its completion is consumed. */
    method SubmitOp(kind: OpKind, c: int)
      requires c in heap
      modifies this`heap, this`kernel, this`pendingTotal
      ensures heap == old(heap)[c := old(heap)[c].(refs := old(heap)[c].refs + 1, pending := old(heap)[c].pending + 1)]
      ensures kernel == old(kernel) + multiset{Op(kind, c)} && pendingTotal == old(pendingTotal) + 1
    {
      kernel := kernel + multiset{Op(kind, c)};
      RetainCtx(c);
      heap := heap[c := heap[c].(pending := heap[c].pending + 1)];
      pendingTotal := pendingTotal + 1;
    }

    /** The array doubles when it is full; growth may fail. */
    method AddToRearmQueue(c: int, allocOk: bool) returns (ok: bool)
      requires rearmCount <= rearmPending.Length
      modifies this`rearmPending, this`rearmCount, rearmPending
      ensures rearmCount <= rearmPending.Length
      ensures ok <==> CanQueue(old(View()), allocOk)
      ensures ok ==> View() == old(View()).(rearm := old(View()).rearm + [c], slots := SlotsFor(old(View())))
      ensures !ok ==> View() == old(View())
      ensures rearmPending == old(rearmPending) || fresh(rearmPending)
      ensures old(rearmCount < rearmPending.Length) ==>
                rearmPending == old(rearmPending) && rearmPending[..] == old(rearmPending[..])[old(rearmCount) := c]
    {
      if rearmCount >= rearmPending.Length {
        if !allocOk { return false; }
        var grown := new int[if rearmPending.Length == 0 then 64 else rearmPending.Length * 2];
        for i := 0 to rearmCount
          invariant unchanged(this) && unchanged(rearmPending)
          invariant grown[..i] == rearmPending[..i]
        {
          grown[i] := rearmPending[i];
        }
        rearmPending := grown;
      }
      rearmPending[rearmCount] := c;
      rearmCount := rearmCount + 1;
      ok := true;
      assert rearmPending[..rearmCount] == old(rearmPending[..rearmCount]) + [c];
    }

    method Add(id: int, owner: Owner, fd: int, mask: nat, sqeOk: bool) returns (ok: bool)
      requires Valid() && id !in heap && owner != SocketOwner(None)
      modifies this
      ensures rearmCount <= rearmPending.Length && rearmPending == old(rearmPending)
      ensures (View(), ok) == AddContext(old(View()), id, owner, fd, mask, sqeOk)
    {
      if fd < 0 || fd >= FD_LIMIT { return false; }
      if backend.Uring? {
        if fd in ctxMap { return false; }
        if !sqeOk { return false; }
        heap := heap[id := NewContext(owner, fd, mask, true)];
        SubmitOp(PollAdd, id);
        ctxMap := ctxMap[fd := id];
      } else {
        if !sqeOk { return false; }
        heap := heap[id := NewContext(owner, fd, mask, false)];
        interest := interest[fd := id];
        ctxMap := ctxMap[fd := id];
      }
      ok := true;
    }

    method EnqueueCtx(c: int, allocOk: bool) returns (ok: bool)
      requires rearmCount <= rearmPending.Length && c in heap
      modifies this`heap, this`rearmPending, this`rearmCount, rearmPending
      ensures rearmCount <= rearmPending.Length && (rearmPending == old(rearmPending) || fresh(rearmPending))
      ensures ok <==> CanQueue(old(View()), allocOk)
      ensures View() == if ok then Enqueue(old(View()), c) else old(View())
    {
      ghost var goal := Enqueue(View(), c);
      ok := AddToRearmQueue(c, allocOk);
      if ok {
        RetainCtx(c);
        heap := heap[c := heap[c].(queued := true)];
        assert heap == goal.heap;
      }
    }

    method Modify(fd: int, mask: nat, allocOk: bool, sqeOk: bool) returns (ok: bool)
      requires Valid()
      modifies this, rearmPending
      ensures rearmCount <= rearmPending.Length
      ensures rearmPending == old(rearmPending) || fresh(rearmPending)
      ensures (View(), ok) == ModifySocket(old(View()), fd, mask, allocOk, sqeOk)
    {
      if fd < 0 || fd >= FD_LIMIT || fd !in ctxMap { return false; }
      var c := ctxMap[fd];
      if backend.Epoll? {
        if sqeOk { heap := heap[c := heap[c].(mask := mask)]; }
        return sqeOk;
      }
      if heap[c].closing { return false; }
      ghost var goal := ModifySocket(View(), fd, mask, allocOk, sqeOk).0;
      if !heap[c].armed {
        heap := heap[c := heap[c].(mask := mask)];
        if mask != 0 && !heap[c].queued {
          ok := EnqueueCtx(c, allocOk);
          return;
        }
        return true;
      }
      if !sqeOk { return false; }
      SubmitOp(PollUpdate, c);
      heap := heap[c := heap[c].(mask := mask)];
      assert heap == goal.heap;
      return true;
    }

    /** Leave the map: the map's reference is dropped, those of operations and of the rearm queue stay. */
    method DropFromMap(fd: int, owner: Owner)
      requires Valid() && fd in ctxMap
      modifies this`heap, this`ctxMap
      ensures rearmCount <= rearmPending.Length && View() == Unmap(old(View()), fd, owner)
    {
      var c := ctxMap[fd];
      ghost var goal := Unmap(View(), fd, owner);
      heap := heap[c := heap[c].(closing := true)];
      ctxMap := ctxMap - {fd};
      heap := heap[c := heap[c].(owner := owner)];
      ReleaseCtx(c);
      assert heap == goal.heap;
    }

    method UringDrop(fd: int, owner: Owner)
      requires Valid() && fd in ctxMap
      modifies this`heap, this`ctxMap, this`kernel, this`pendingTotal
      ensures rearmCount <= rearmPending.Length && View() == UringUnmap(old(View()), fd, owner)
    {
      var c := ctxMap[fd];
      if heap[c].armed {
        SubmitOp(PollRemove, c);
      }
      DropFromMap(fd, owner);
    }

    method Remove(fd: int, res: DelResult) returns (ok: bool)
      requires Valid()
      modifies this
      ensures rearmCount <= rearmPending.Length && rearmPending == old(rearmPending)
      ensures (View(), ok) == RemoveSocket(old(View()), fd, res)
    {
      if fd < 0 || fd >= FD_LIMIT || fd !in ctxMap { return false; }
      var c := ctxMap[fd];
      if backend.Uring? {
        if heap[c].closing { return false; }
        if heap[c].armed && res.Failed? { return false; }
        UringDrop(fd, Forget(heap[c].owner));
      } else {
        heap := heap[c := heap[c].(owner := Forget(heap[c].owner))];
        if res.Failed? { return false; }
        interest := interest - {fd};
        ctxMap := ctxMap - {fd};
        deferPending := deferPending + [c];
      }
      ok := true;
    }

    /** The timer's context leaves the back end; epoll releases it at once. */
    method RemoveTimerCtx(fd: int, res: DelResult) returns (ok: bool)
      requires Valid()
      modifies this
      ensures rearmCount <= rearmPending.Length && rearmPending == old(rearmPending)
      ensures (View(), ok) == RemoveTimerContext(old(View()), fd, res)
    {
      if fd < 0 || fd >= FD_LIMIT || fd !in ctxMap { return false; }
      var c := ctxMap[fd];
      if backend.Uring? {
        if heap[c].closing { return false; }
        if heap[c].armed && res.Failed? { return false; }
        UringDrop(fd, heap[c].owner);
      } else {
        if res.Failed? { return false; }
        interest := interest - {fd};
        ctxMap := ctxMap - {fd};
        ReleaseCtx(c);
      }
      ok := true;
    }

    /** Half-way through the drain: unread entries first, then those written back; `goal` is where it will end. */
    ghost predicate DrainAt(i: nat, n: nat, mid: State, goal: State, oks: seq<bool>)
      reads this, rearmPending
    {
      && Shows(i, n, mid) && n <= |oks|
      && Inv(mid) && mid.backend.Uring?
      && Drain(mid, oks[i..n]) == goal
    }

    /**
     The drain of the rearm queue: entries are read from the front while entries that found no submission entry
     are written back at the front.  No unread entry is overwritten.
     */
    method DrainRearmQueue(oks: seq<bool>)
      requires Valid() && Inv(View()) && backend.Uring? && |oks| == rearmCount
      modifies this, rearmPending
      ensures rearmCount <= rearmPending.Length && rearmPending == old(rearmPending)
      ensures View() == Drain(old(View()), oks)
    {
      var n := rearmCount;
      ghost var goal := Drain(View(), oks);
      rearmCount := 0;
      ghost var mid := old(View());
      assert oks[0..n] == oks && rearmPending[0..n] + rearmPending[..0] == rearmPending[..n];
      for i := 0 to n
        invariant rearmPending == old(rearmPending)
        invariant DrainAt(i, n, mid, goal, oks)
      {
        mid := DrainStep(i, n, mid, goal, oks);
      }
    }

    method DrainStep(i: nat, n: nat, ghost mid: State, ghost goal: State, oks: seq<bool>) returns (ghost mid': State)
      requires i < n && DrainAt(i, n, mid, goal, oks)
      modifies this, rearmPending
      ensures rearmPending == old(rearmPending)
      ensures DrainAt(i + 1, n, mid', goal, oks)
    {
      HeadOwned(mid);
      DrainOneKeeps(mid, oks[i]);
      DrainOneHolds(mid, oks[i]);
      assert mid.rearm[0] == rearmPending[i] && oks[i..n][1..] == oks[i + 1..n] && oks[i..n][0] == oks[i];
      mid' := DrainOne(mid, oks[i]);
      DrainEntry(i, n, mid, oks[i]);
    }

    /** The state with the queue as the drain sees it: unread entries, then those written back. */
    ghost predicate Shows(i: nat, n: nat, mid: State)
      reads this, rearmPending
    {
      && rearmCount <= i <= n <= rearmPending.Length
      && mid == View().(rearm := rearmPending[i..n] + rearmPending[..rearmCount])
    }

    /** One entry. */
    method DrainEntry(i: nat, n: nat, ghost mid: State, sqeOk: bool)
      requires i < n && Shows(i, n, mid)
      requires rearmPending[i] in heap && heap[rearmPending[i]].refs >= 1 && heap[rearmPending[i]].queued
      modifies this, rearmPending
      ensures rearmPending == old(rearmPending) && forall k :: i < k < n ==> rearmPending[k] == old(rearmPending[k])
      ensures Shows(i + 1, n, DrainOne(mid, sqeOk))
    {
      var c := rearmPending[i];
      assert mid.rearm == [c] + (rearmPending[i + 1..n] + rearmPending[..rearmCount]);
      if heap[c].closing || heap[c].mask == 0 {
        PopEntry(i, n, mid, c);
      } else if sqeOk {
        ArmEntry(i, n, mid, c);
      } else {
        RequeueEntry(i, n, mid, c);
      }
    }

    method PopEntry(i: nat, n: nat, ghost mid: State, c: int)
      requires i < n && Shows(i, n, mid) && c in heap && c == rearmPending[i]
      modifies this`heap
      ensures Shows(i + 1, n, Pop(mid))
    {
      heap := heap[c := heap[c].(queued := false)];
      ReleaseCtx(c);
      assert mid.rearm[1..] == rearmPending[i + 1..n] + rearmPending[..rearmCount];
    }

    /** A new POLL_ADD takes a reference of its own before the queue's is released. */
    method ArmEntry(i: nat, n: nat, ghost mid: State, c: int)
      requires i < n && Shows(i, n, mid) && c in heap && c == rearmPending[i] && heap[c].refs >= 1
      modifies this`heap, this`kernel, this`pendingTotal
      ensures Shows(i + 1, n, Rearm(mid))
    {
      Rearmed(c);
      assert mid.rearm[1..] == rearmPending[i + 1..n] + rearmPending[..rearmCount];
    }

    method Rearmed(c: int)
      requires c in heap && heap[c].refs >= 1
      modifies this`heap, this`kernel, this`pendingTotal
      ensures heap == old(heap)[c := old(heap)[c].(queued := false, armed := true, pending := old(heap)[c].pending + 1)]
      ensures kernel == old(kernel) + multiset{Op(PollAdd, c)} && pendingTotal == old(pendingTotal) + 1
    {
      heap := heap[c := heap[c].(queued := false)];
      SubmitOp(PollAdd, c);
      heap := heap[c := heap[c].(armed := true)];
      ReleaseCtx(c);
    }

    /** Write the context back at the front: a slot that the drain has already read. */
    method RequeueEntry(i: nat, n: nat, ghost mid: State, c: int)
      requires i < n && Shows(i, n, mid) && c in heap && c == rearmPending[i] && heap[c].refs >= 1 && heap[c].queued
      modifies this`heap, this`rearmPending, this`rearmCount, rearmPending
      ensures rearmPending == old(rearmPending) && forall k :: i < k < n ==> rearmPending[k] == old(rearmPending[k])
      ensures Shows(i + 1, n, Requeue(mid))
    {
      ghost var rest := rearmPending[i + 1..n] + rearmPending[..rearmCount];
      assert mid.rearm == [c] + rest;
      heap := heap[c := heap[c].(queued := false)];
      var _ := AddToRearmQueue(c, false);
      assert rearmPending[i + 1..n] + rearmPending[..rearmCount] == rest + [c];
      RetainCtx(c);
      heap := heap[c := heap[c].(queued := true)];
      ReleaseCtx(c);
      assert heap == mid.heap;
    }

    // -------------------------------------------------------------- completions

    /** The operation is consumed: its count drops, and a completed POLL_ADD disarms the poll. */
    method Consume(op: Op)
      requires op.ctx in heap
      modifies this`heap, this`kernel, this`pendingTotal
      ensures heap == old(heap)[op.ctx := old(heap)[op.ctx].(pending := old(heap)[op.ctx].pending - 1,
                                                             armed := old(heap)[op.ctx].armed && !op.kind.PollAdd?)]
      ensures kernel == old(kernel) - multiset{op} && pendingTotal == old(pendingTotal) - 1
    {
      pendingTotal := pendingTotal - 1;
      kernel := kernel - multiset{op};
      var x := heap[op.ctx];
      if op.kind.PollAdd? { x := x.(armed := false); }
      heap := heap[op.ctx := x.(pending := x.pending - 1)];
    }

    method GiveUp(op: Op)
      requires rearmCount <= rearmPending.Length && op.ctx in heap
      modifies this`heap, this`kernel, this`pendingTotal
      ensures View() == FinishOp(old(View()), op)
    {
      Consume(op);
      ReleaseCtx(op.ctx);
    }

    /** The queue takes a reference of its own, if it can grow, before the completed operation's is released. */
    method PassToQueue(c: int, allocOk: bool) returns (ok: bool)
      requires rearmCount <= rearmPending.Length && c in heap && heap[c].refs >= 1
      modifies this`heap, this`rearmPending, this`rearmCount, rearmPending
      ensures rearmCount <= rearmPending.Length && (rearmPending == old(rearmPending) || fresh(rearmPending))
      ensures ok <==> CanQueue(old(View()), allocOk)
      ensures rearmPending.Length == if ok then SlotsFor(old(View())) else old(rearmPending.Length)
      ensures rearmPending[..rearmCount] == old(rearmPending[..rearmCount]) + if ok then [c] else []
      ensures ok ==> heap == old(heap)[c := old(heap)[c].(queued := true)]
      ensures !ok ==> heap == if old(heap)[c].refs <= 1 then old(heap) - {c} else old(heap)[c := old(heap)[c].(refs := old(heap)[c].refs - 1)]
    {
      ghost var before := View();
      ok := AddToRearmQueue(c, allocOk);
      assert View().rearm == before.rearm + (if ok then [c] else []) && View().slots == if ok then SlotsFor(before) else before.slots;
      if ok {
        RetainCtx(c);
        heap := heap[c := heap[c].(queued := true)];
      }
      ReleaseCtx(c);
    }

    method GiveToQueue(c: int, allocOk: bool) returns (ok: bool)
      requires rearmCount <= rearmPending.Length && c in heap && heap[c].refs >= 1
      modifies this, rearmPending
      ensures rearmCount <= rearmPending.Length && (rearmPending == old(rearmPending) || fresh(rearmPending))
      ensures ok <==> CanQueue(old(View()), allocOk)
      ensures ok ==> View() == FinishAndQueue(old(View()), Op(PollAdd, c))
      ensures !ok ==> View() == FinishOp(old(View()), Op(PollAdd, c))
    {
      ghost var before := View();
      Consume(Op(PollAdd, c));
      ok := PassToQueue(c, allocOk);
      assert ok ==> heap == FinishAndQueue(before, Op(PollAdd, c)).heap;
    }

    /** What a completed poll reports. */
    method Report(q: Cqe) returns (e: Option<Event>)
      requires q.op.ctx in heap && q.op.kind.PollAdd?
      ensures e == EventOf(heap[q.op.ctx], q)
    {
      var c := q.op.ctx;
      e := None;
      if !q.canceled && !heap[c].closing {
        if heap[c].owner.TimerOwner? {
          e := Some(TimerEvent(heap[c].owner.timer));
        } else if q.failed {
          e := Some(SocketEvent(c, false, false, true));
        } else {
          e := Some(SocketEvent(c, q.readable, q.writable, q.hangup));
        }
      }
    }

    /** A completed POLL_ADD: back into the queue, or given up. */
    method FinishPoll(q: Cqe) returns (oom: bool)
      requires rearmCount <= rearmPending.Length && q.op.ctx in heap && heap[q.op.ctx].refs >= 1 && q.op.kind.PollAdd?
      modifies this, rearmPending
      ensures rearmCount <= rearmPending.Length && (rearmPending == old(rearmPending) || fresh(rearmPending))
      ensures View() == Complete(old(View()), q) && (oom <==> NoRoom(old(View()), q))
    {
      var c := q.op.ctx;
      assert q.op == Op(PollAdd, c);
      CompleteCases(View(), q);
      if !heap[c].closing && heap[c].mask != 0 && !heap[c].queued {
        var ok := GiveToQueue(c, q.allocOk);
        oom := !ok;
      } else {
        GiveUp(q.op);
        oom := false;
      }
    }

    method HandleCqe(q: Cqe) returns (e: Option<Event>, oom: bool)
      requires rearmCount <= rearmPending.Length && q.op.ctx in heap && heap[q.op.ctx].refs >= 1
      modifies this, rearmPending
      ensures rearmCount <= rearmPending.Length && (rearmPending == old(rearmPending) || fresh(rearmPending))
      ensures View() == Complete(old(View()), q) && (oom <==> NoRoom(old(View()), q))
      ensures e == EventOf(old(heap)[q.op.ctx], q)
    {
      if q.op.kind.PollAdd? {
        e := Report(q);
        oom := FinishPoll(q);
      } else {
        e, oom := None, false;
        GiveUp(q.op);
      }
    }

    /** Half-way through the completion loop: `done` are the completions consumed. */
    ghost predicate CompletionsAt(start: State, done: seq<Cqe>, events: seq<Event>, oom: bool)
      reads this, rearmPending
    {
      rearmCount <= rearmPending.Length && Reached(start, done, View(), events, oom)
    }

    /** The completion loop.  A queue that cannot grow does not end it, but spoils its result. */
    method HandleCompletions(cqes: seq<Cqe>) returns (events: seq<Event>, oom: bool)
      requires Valid() && Inv(View()) && backend.Uring? && OpsOf(cqes) <= kernel
      modifies this, rearmPending
      ensures rearmCount <= rearmPending.Length && (rearmPending == old(rearmPending) || fresh(rearmPending))
      ensures Completions(old(View()), cqes, []) == Harvest(View(), events, oom)
    {
      ghost var start := View();
      events, oom := [], false;
      var i := 0;
      assert cqes[..0] == [];
      while i < |cqes| && !(cqes[i].op.kind.PollAdd? && |events| >= MAX_EVENTS)
        invariant i <= |cqes| && (rearmPending == old(rearmPending) || fresh(rearmPending)) && CompletionsAt(start, cqes[..i], events, oom)
      {
        NextOps(cqes, i, start.kernel);
        events, oom := Collect(start, cqes[..i], cqes[i], events, oom);
        i := i + 1;
      }
      StopHere(start, cqes, i, events, oom);
    }

    lemma StopHere(start: State, cqes: seq<Cqe>, i: nat, events: seq<Event>, oom: bool)
      requires i <= |cqes| && CompletionsAt(start, cqes[..i], events, oom) && OpsOf(cqes) <= start.kernel
      requires i < |cqes| ==> cqes[i].op.kind.PollAdd? && |events| >= MAX_EVENTS
      ensures Completions(start, cqes, []) == Harvest(View(), events, oom)
    {
      assert cqes[..i] + cqes[i..] == cqes;
      AndThen(start, cqes[..i], cqes[i..], []);
    }

    /** One completion more, and what it reports goes into the batch. */
    method Collect(ghost start: State, ghost done: seq<Cqe>, q: Cqe, events: seq<Event>, oom: bool) returns (events': seq<Event>, oom': bool)
      requires CompletionsAt(start, done, events, oom) && (q.op.kind.PollAdd? ==> |events| < MAX_EVENTS)
      requires OpsOf(done + [q]) <= start.kernel
      modifies this, rearmPending
      ensures rearmPending == old(rearmPending) || fresh(rearmPending)
      ensures CompletionsAt(start, done + [q], events', oom')
    {
      ghost var before := View();
      NextIsLive(start, done, q, before, events, oom);
      events', oom' := AppendReport(q, events, oom);
      NextHarvest(start, done, q, before, events, oom, View(), events', oom');
    }

    method AppendReport(q: Cqe, events: seq<Event>, oom: bool) returns (events': seq<Event>, oom': bool)
      requires rearmCount <= rearmPending.Length && q.op.ctx in heap && heap[q.op.ctx].refs >= 1
      modifies this, rearmPending
      ensures rearmCount <= rearmPending.Length && (rearmPending == old(rearmPending) || fresh(rearmPending))
      ensures View() == Complete(old(View()), q) && events' == events + Reported(old(heap)[q.op.ctx], q)
      ensures oom' <==> oom || NoRoom(old(View()), q)
    {
      var e, full := HandleCqe(q);
      events' := if e.Some? then events + [e.value] else events;
      oom' := oom || full;
    }

    /** event_backend_wait of io_uring: flush, drain, wait, and consume what has completed. */
    method WaitRing(flushOk: bool, oks: seq<bool>, cqes: seq<Cqe>, waitOk: bool) returns (events: seq<Event>, ok: bool)
      requires Valid() && Inv(View()) && Answerable(View(), UringAnswers(flushOk, oks, cqes, waitOk))
      modifies this, rearmPending
      ensures rearmCount <= rearmPending.Length
      ensures (View(), events, ok) == Wait(old(View()), UringAnswers(flushOk, oks, cqes, waitOk))
    {
      if !flushOk {
        return [], false;
      }
      DrainRearmQueue(oks);
      var oom;
      events, oom := HandleCompletions(cqes);
      ok := waitOk && !oom;
    }

    // -------------------------------------------------------------- the deferred-release queue and timers

    ghost predicate FlushAt(i: nat, mid: State, goal: State)
      reads this, rearmPending
    {
      && rearmCount <= rearmPending.Length && i <= |deferPending| && mid == View().(deferred := deferPending[i..])
      && Inv(mid) && Flush(mid) == goal
    }

    method FlushDeferQueue()
      requires Valid() && Inv(View())
      modifies this
      ensures rearmCount <= rearmPending.Length && rearmPending == old(rearmPending)
      ensures View() == Flush(old(View()))
    {
      ghost var goal, mid := Flush(View()), View();
      assert deferPending[0..] == deferPending;
      for i := 0 to |deferPending|
        invariant deferPending == old(deferPending) && rearmPending == old(rearmPending) && FlushAt(i, mid, goal)
      {
        mid := FlushTurn(i, mid, goal);
      }
      deferPending := [];
    }

    method FlushTurn(i: nat, ghost mid: State, ghost goal: State) returns (ghost mid': State)
      requires FlushAt(i, mid, goal) && i < |deferPending|
      modifies this`heap
      ensures FlushAt(i + 1, mid', goal)
    {
      FlushNext(mid, goal);
      mid' := FlushOne(mid);
      FlushEntry(i, mid);
    }

    method FlushEntry(i: nat, ghost mid: State)
      requires rearmCount <= rearmPending.Length && i < |deferPending| && mid == View().(deferred := deferPending[i..])
      requires deferPending[i] in heap
      modifies this`heap
      ensures View().(deferred := deferPending[i + 1..]) == FlushOne(mid)
    {
      ReleaseCtx(deferPending[i]);
      assert deferPending[i..][1..] == deferPending[i + 1..];
    }

    method AddTimer(id: int, t: int, ok: bool) returns (added: bool)
      requires Valid() && id !in heap && t in timers
      modifies this
      ensures rearmCount <= rearmPending.Length && rearmPending == old(rearmPending)
      ensures (View(), added) == EventLoop.AddTimer(old(View()), id, t, ok)
    {
      if timers[t].attached { return false; }
      if |active| >= MAX_TIMERS { return false; }
      added := Add(id, TimerOwner(t), timers[t].tfd, 1, ok);
      if added {
        timers := timers[t := timers[t].(attached := true, refs := timers[t].refs + 1)];
        active := active + [t];
      }
    }

    method RemoveTimer(t: int, stopOk: bool, res: DelResult) returns (removed: bool)
      requires Valid() && t in timers
      modifies this
      ensures rearmCount <= rearmPending.Length && rearmPending == old(rearmPending)
      ensures (View(), removed) == EventLoop.RemoveTimer(old(View()), t, stopOk, res)
    {
      var i := FindActive(t);
      if i == |active| || !stopOk { return false; }
      removed := RemoveTimerCtx(timers[t].tfd, res);
      if removed {
        DetachTimer(t, i);
      }
    }

    method DetachTimer(t: int, i: nat)
      requires rearmCount <= rearmPending.Length && t in timers && t in active && i == IndexOf(active, t)
      modifies this`timers, this`active
      ensures View() == Detach(old(View()), t)
    {
      ghost var goal := Detach(View(), t);
      timers := timers[t := timers[t].(attached := false)];
      active := active[i := active[|active| - 1]][..|active| - 1];
      if timers[t].refs <= 1 {
        timers := timers - {t};
      } else {
        timers := timers[t := timers[t].(refs := timers[t].refs - 1)];
      }
      assert timers == goal.timers;
    }

    method FindActive(t: int) returns (i: nat)
      ensures i == IndexOf(active, t)
    {
      i := 0;
      assert active[0..] == active;
      while i < |active| && active[i] != t
        invariant i <= |active| && IndexOf(active, t) == i + IndexOf(active[i..], t)
      {
        assert active[i..][1..] == active[i + 1..];
        i := i + 1;
      }
    }
  }

  lemma FlushNext(mid: State, goal: State)
    requires Inv(mid) && mid.deferred != [] && Flush(mid) == goal
    ensures mid.deferred[0] in mid.heap && Inv(FlushOne(mid)) && Flush(FlushOne(mid)) == goal
  {
    FlushOneKeeps(mid);
  }

  lemma HeadOwned(s: State)
    requires Inv(s) && s.backend.Uring? && s.rearm != []
    ensures s.rearm[0] in s.heap && s.heap[s.rearm[0]].refs >= 1 && s.heap[s.rearm[0]].queued
  {
    assert Owned(s, s.rearm[0]);
  }
}
