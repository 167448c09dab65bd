/** The ownership equation survives every operation of the loop. */
module EventLoopInvariant {
  import opened Common
  import opened EventLoop

  /** `s` and `s'` agree on everything that the ownership of `d` depends on. */
  predicate SameAt(s: State, s': State, d: int) {
    && s'.backend == s.backend
    && (d in s'.heap <==> d in s.heap)
    && (d in s.heap ==> s'.heap[d] == s.heap[d] && (InMap(s', d) <==> InMap(s, d)))
    && OpCount(s'.kernel, d) == OpCount(s.kernel, d)
    && s'.kernel[Op(PollAdd, d)] == s.kernel[Op(PollAdd, d)]
    && (d in s'.rearm <==> d in s.rearm)
    && (d in s'.deferred <==> d in s.deferred)
  }

  lemma SameOwned(s: State, s': State, d: int)
    requires Owned(s, d) && SameAt(s, s', d)
    ensures Owned(s', d)
  {
  }

  /** An operation that touches the single context `c` keeps the equation if it does so at `c`. */
  lemma Locally(s: State, s': State, c: int)
    requires forall d: int :: Owned(s, d)
    requires forall d: int :: d != c ==> SameAt(s, s', d)
    requires Owned(s', c)
    ensures forall d: int :: Owned(s', d)
  {
    forall d: int ensures Owned(s', d) {
      if d != c { assert SameAt(s, s', d); SameOwned(s, s', d); }
    }
  }

  lemma SubmitKeeps(s: State, kind: OpKind, c: int)
    requires ContextsOk(s) && s.backend.Uring? && c in s.heap && !kind.PollAdd?
    ensures ContextsOk(Submit(s, kind, c))
  {
    assert Owned(s, c);
    Locally(s, Submit(s, kind, c), c);
  }

  lemma UnmapKeeps(s: State, fd: int, owner: Owner)
    requires ContextsOk(s) && s.backend.Uring? && fd in s.ctxMap
    ensures ContextsOk(Unmap(s, fd, owner))
  {
    var c := s.ctxMap[fd];
    assert Owned(s, c);
    Locally(s, Unmap(s, fd, owner), c);
  }

  lemma UringUnmapKeeps(s: State, fd: int, owner: Owner)
    requires ContextsOk(s) && s.backend.Uring? && fd in s.ctxMap
    ensures ContextsOk(UringUnmap(s, fd, owner))
  {
    var c := s.ctxMap[fd];
    if s.heap[c].armed {
      SubmitKeeps(s, PollRemove, c);
      UnmapKeeps(Submit(s, PollRemove, c), fd, owner);
    } else {
      UnmapKeeps(s, fd, owner);
    }
  }

  lemma EnqueueKeeps(s: State, c: int)
    requires ContextsOk(s) && s.backend.Uring? && c in s.heap && !s.heap[c].armed && !s.heap[c].queued
    ensures ContextsOk(Enqueue(s, c))
  {
    assert Owned(s, c);
    Locally(s, Enqueue(s, c), c);
  }

  lemma SetMaskKeeps(s: State, c: int, mask: nat)
    requires ContextsOk(s) && c in s.heap
    ensures ContextsOk(s.(heap := s.heap[c := s.heap[c].(mask := mask)]))
  {
    assert Owned(s, c);
    Locally(s, s.(heap := s.heap[c := s.heap[c].(mask := mask)]), c);
  }

  lemma UringInsertKeeps(s: State, id: int, owner: Owner, fd: int, mask: nat)
    requires ContextsOk(s) && s.backend.Uring? && id !in s.heap && owner != SocketOwner(None)
    requires 0 <= fd < FD_LIMIT && fd !in s.ctxMap
    ensures ContextsOk(UringInsert(s, id, owner, fd, mask))
  {
    assert Owned(s, id);
    Locally(s, UringInsert(s, id, owner, fd, mask), id);
  }

  lemma EpollInsertKeeps(s: State, id: int, owner: Owner, fd: int, mask: nat)
    requires ContextsOk(s) && s.backend.Epoll? && id !in s.heap
    requires 0 <= fd < FD_LIMIT && fd !in s.ctxMap
    ensures ContextsOk(EpollInsert(s, id, owner, fd, mask))
  {
    assert Owned(s, id);
    Locally(s, EpollInsert(s, id, owner, fd, mask), id);
  }

  lemma AddContextKeeps(s: State, id: int, owner: Owner, fd: int, mask: nat, ok: bool)
    requires ContextsOk(s) && id !in s.heap && owner != SocketOwner(None)
    requires s.backend.Epoll? && ok ==> fd !in s.ctxMap
    ensures ContextsOk(AddContext(s, id, owner, fd, mask, ok).0)
  {
    if 0 <= fd < FD_LIMIT && ok && fd !in s.ctxMap {
      if s.backend.Uring? {
        UringInsertKeeps(s, id, owner, fd, mask);
      } else {
        EpollInsertKeeps(s, id, owner, fd, mask);
      }
    }
  }

  lemma ModifySocketKeeps(s: State, fd: int, mask: nat, allocOk: bool, ok: bool)
    requires ContextsOk(s)
    ensures ContextsOk(ModifySocket(s, fd, mask, allocOk, ok).0)
  {
    if 0 <= fd < FD_LIMIT && fd in s.ctxMap {
      var c := s.ctxMap[fd];
      SetMaskKeeps(s, c, mask);
      var s1 := s.(heap := s.heap[c := s.heap[c].(mask := mask)]);
      if s.backend.Uring? {
        if s.heap[c].armed {
          SubmitKeeps(s1, PollUpdate, c);
        } else if !s.heap[c].queued {
          EnqueueKeeps(s1, c);
        }
      }
    }
  }

  lemma RemoveSocketKeeps(s: State, fd: int, res: DelResult)
    requires ContextsOk(s)
    ensures ContextsOk(RemoveSocket(s, fd, res).0)
  {
    if 0 <= fd < FD_LIMIT && fd in s.ctxMap {
      var c := s.ctxMap[fd];
      assert Owned(s, c);
      if s.backend.Uring? {
        UringUnmapKeeps(s, fd, Forget(s.heap[c].owner));
      } else {
        Locally(s, RemoveSocket(s, fd, res).0, c);
      }
    }
  }

  lemma RemoveTimerContextKeeps(s: State, fd: int, res: DelResult)
    requires ContextsOk(s)
    ensures ContextsOk(RemoveTimerContext(s, fd, res).0)
  {
    if 0 <= fd < FD_LIMIT && fd in s.ctxMap {
      var c := s.ctxMap[fd];
      assert Owned(s, c);
      if s.backend.Uring? {
        UringUnmapKeeps(s, fd, s.heap[c].owner);
      } else if !res.Failed? {
        Locally(s, RemoveTimerContext(s, fd, res).0, c);
      }
    }
  }

  // ---------------------------------------------------------------- timers

  lemma ContextsFrame(s: State, s': State)
    requires ContextsOk(s)
    requires s'.backend == s.backend && s'.heap == s.heap && s'.ctxMap == s.ctxMap && s'.rearm == s.rearm
    requires s'.deferred == s.deferred && s'.kernel == s.kernel && s'.pendingTotal == s.pendingTotal
    requires s'.interest == s.interest && s'.slots == s.slots
    ensures ContextsOk(s')
  {
    forall d: int ensures Owned(s', d) { assert Owned(s, d); SameOwned(s, s', d); }
  }

  /** The map entry of `fd` and the owner behind it are the same in both states. */
  predicate SameEntry(s: State, s': State, fd: int) {
    && (fd in s'.ctxMap <==> fd in s.ctxMap)
    && (fd in s.ctxMap ==> s'.ctxMap[fd] == s.ctxMap[fd])
    && (fd in s.ctxMap && s.ctxMap[fd] in s.heap ==>
          s.ctxMap[fd] in s'.heap && s'.heap[s.ctxMap[fd]].owner == s.heap[s.ctxMap[fd]].owner)
  }

  /** Only the map entry of `f` may differ. */
  ghost predicate OnlyEntry(s: State, s': State, f: int) {
    && s'.timers == s.timers && s'.active == s.active && s'.held == s.held
    && forall fd :: fd != f ==> SameEntry(s, s', fd)
  }

  lemma AddContextTouches(s: State, id: int, owner: Owner, fd: int, mask: nat, ok: bool)
    requires MapOk(s) && id !in s.heap
    ensures OnlyEntry(s, AddContext(s, id, owner, fd, mask, ok).0, fd)
  {
  }

  lemma ModifyTouches(s: State, fd: int, mask: nat, allocOk: bool, ok: bool)
    requires MapOk(s)
    ensures OnlyEntry(s, ModifySocket(s, fd, mask, allocOk, ok).0, fd)
    ensures SameEntry(s, ModifySocket(s, fd, mask, allocOk, ok).0, fd)
  {
    var s' := ModifySocket(s, fd, mask, allocOk, ok).0;
    ModifyKeepsOwners(s, fd, mask, allocOk, ok);
    forall f ensures SameEntry(s, s', f) { }
  }

  /** The map and the timers are as before, and every context keeps its owner. */
  predicate SameOwners(s: State, s': State) {
    && s'.ctxMap == s.ctxMap && s'.timers == s.timers && s'.active == s.active && s'.held == s.held
    && (forall c :: c in s.heap ==> c in s'.heap && s'.heap[c].owner == s.heap[c].owner)
  }

  lemma EnqueueOwners(s: State, c: int)
    requires c in s.heap
    ensures SameOwners(s, Enqueue(s, c))
  {
  }

  lemma SubmitOwners(s: State, kind: OpKind, c: int)
    requires c in s.heap
    ensures SameOwners(s, Submit(s, kind, c))
  {
  }

  lemma SetMaskOwners(s: State, c: int, mask: nat)
    requires c in s.heap
    ensures SameOwners(s, s.(heap := s.heap[c := s.heap[c].(mask := mask)]))
  {
  }

  lemma ModifyKeepsOwners(s: State, fd: int, mask: nat, allocOk: bool, ok: bool)
    requires MapOk(s)
    ensures SameOwners(s, ModifySocket(s, fd, mask, allocOk, ok).0)
  {
    if fd in s.ctxMap {
      var c := s.ctxMap[fd];
      var s1 := s.(heap := s.heap[c := s.heap[c].(mask := mask)]);
      SetMaskOwners(s, c, mask);
      EnqueueOwners(s1, c);
      SubmitOwners(s1, PollUpdate, c);
    }
  }

  lemma UringUnmapTouches(s: State, fd: int, owner: Owner)
    requires MapOk(s) && fd in s.ctxMap
    ensures OnlyEntry(s, UringUnmap(s, fd, owner), fd)
    ensures fd !in UringUnmap(s, fd, owner).ctxMap
  {
  }

  lemma ForgetTouches(s: State, fd: int, s': State)
    requires MapOk(s) && fd in s.ctxMap && s'.timers == s.timers && s'.active == s.active && s'.held == s.held
    requires s'.heap == s.heap[s.ctxMap[fd] := s.heap[s.ctxMap[fd]].(owner := Forget(s.heap[s.ctxMap[fd]].owner))]
    requires s'.ctxMap == s.ctxMap || s'.ctxMap == s.ctxMap - {fd}
    ensures OnlyEntry(s, s', fd)
  {
  }

  lemma RemoveSocketTouches(s: State, fd: int, res: DelResult)
    requires MapOk(s)
    ensures OnlyEntry(s, RemoveSocket(s, fd, res).0, fd)
  {
    if fd in s.ctxMap {
      if s.backend.Uring? {
        UringUnmapTouches(s, fd, Forget(s.heap[s.ctxMap[fd]].owner));
      } else {
        ForgetTouches(s, fd, RemoveSocket(s, fd, res).0);
      }
    }
  }

  lemma RemoveTimerContextTouches(s: State, fd: int, res: DelResult)
    requires MapOk(s)
    ensures OnlyEntry(s, RemoveTimerContext(s, fd, res).0, fd)
    ensures RemoveTimerContext(s, fd, res).1 ==> fd !in RemoveTimerContext(s, fd, res).0.ctxMap
    ensures !RemoveTimerContext(s, fd, res).1 ==> RemoveTimerContext(s, fd, res).0 == s
  {
    if fd in s.ctxMap { UringUnmapTouches(s, fd, s.heap[s.ctxMap[fd]].owner); }
  }

  /** Only what concerns timer `t`, and the map entry of descriptor `f`, may differ. */
  ghost predicate OnlyTimer(s: State, s': State, t: int, f: int) {
    && (forall u :: u != t ==> (u in s'.timers <==> u in s.timers))
    && (forall u :: u != t ==> (u in s'.active <==> u in s.active))
    && (forall u :: u != t ==> s'.held[u] == s.held[u])
    && (forall u :: u != t && u in s.timers ==> s'.timers[u] == s.timers[u])
    && (forall fd :: fd != f ==> SameEntry(s, s', fd))
    && (t in s.timers && t in s'.timers ==> s'.timers[t].tfd == s.timers[t].tfd)
  }

  /** A change that concerns one timer, made at its own descriptor or at no timer's, keeps the timers in order. */
  lemma TimerLocally(s: State, s': State, t: int, f: int)
    requires TimersOk(s) && MapOk(s) && OnlyTimer(s, s', t, f)
    requires TimerOwned(s', t) && NoRepeats(s'.active) && |s'.active| <= MAX_TIMERS && DistinctTfds(s'.timers)
    requires forall u :: u in s.timers && u != t ==> s.timers[u].tfd != f
    requires f in s'.ctxMap && s'.ctxMap[f] in s'.heap ==> TimerEntryOk(s', f, s'.heap[s'.ctxMap[f]].owner)
    requires t !in s'.active ==> forall fd :: fd in s'.ctxMap && fd in s.ctxMap && fd != f ==> s.heap[s.ctxMap[fd]].owner != TimerOwner(t)
    ensures TimersOk(s')
  {
    forall u: int ensures TimerOwned(s', u) {
      assert TimerOwned(s, u);
      if u != t && u in s.timers { assert SameEntry(s, s', s.timers[u].tfd); }
    }
    forall fd | fd in s'.ctxMap && s'.ctxMap[fd] in s'.heap
      ensures TimerEntryOk(s', fd, s'.heap[s'.ctxMap[fd]].owner)
    {
      if fd != f { assert SameEntry(s, s', fd) && TimerEntryOk(s, fd, s.heap[s.ctxMap[fd]].owner); assert TimerOwned(s', t); }
    }
  }

  /** A change at a descriptor that is no timer's leaves the timers alone. */
  lemma SocketEntryKeepsTimers(s: State, s': State, f: int)
    requires TimersOk(s) && MapOk(s) && OnlyEntry(s, s', f) && NotATimerFd(s, f)
    requires f in s'.ctxMap && s'.ctxMap[f] in s'.heap ==> s'.heap[s'.ctxMap[f]].owner.SocketOwner?
    ensures TimersOk(s')
  {
    forall u: int ensures TimerOwned(s', u) {
      assert TimerOwned(s, u);
      if u in s.timers { assert SameEntry(s, s', s.timers[u].tfd); }
    }
    forall fd | fd in s'.ctxMap && s'.ctxMap[fd] in s'.heap
      ensures TimerEntryOk(s', fd, s'.heap[s'.ctxMap[fd]].owner)
    {
      if fd != f { assert SameEntry(s, s', fd) && TimerEntryOk(s, fd, s.heap[s.ctxMap[fd]].owner); }
    }
  }

  lemma TimersFrame(s: State, s': State)
    requires TimersOk(s) && MapOk(s) && s'.timers == s.timers && s'.active == s.active && s'.held == s.held
    requires forall fd :: SameEntry(s, s', fd)
    ensures TimersOk(s')
  {
    forall u: int ensures TimerOwned(s', u) {
      assert TimerOwned(s, u);
      if u in s.timers { assert SameEntry(s, s', s.timers[u].tfd); }
    }
    forall fd | fd in s'.ctxMap && s'.ctxMap[fd] in s'.heap
      ensures TimerEntryOk(s', fd, s'.heap[s'.ctxMap[fd]].owner)
    {
      assert SameEntry(s, s', fd) && TimerEntryOk(s, fd, s.heap[s.ctxMap[fd]].owner);
    }
  }

  lemma AttachTimer(s: State, s1: State, t: int)
    requires TimersOk(s) && MapOk(s) && MapOk(s1) && t in s.timers && !s.timers[t].attached && |s.active| < MAX_TIMERS
    requires OnlyEntry(s, s1, s.timers[t].tfd) && s.timers[t].tfd in s1.ctxMap
    requires s1.heap[s1.ctxMap[s.timers[t].tfd]].owner == TimerOwner(t)
    ensures TimersOk(Attach(s1, t))
  {
    assert TimerOwned(s, t);
    assert forall u :: u != t ==> (u in s1.active + [t] <==> u in s1.active);
    forall fd | fd != s.timers[t].tfd ensures SameEntry(s, Attach(s1, t), fd) { assert SameEntry(s, s1, fd); }
    TimerLocally(s, Attach(s1, t), t, s.timers[t].tfd);
  }

  lemma WatchTimerKeeps(s: State, id: int, t: int, ok: bool)
    requires Inv(s) && Legal(s, WatchTimer(id, t, ok))
    ensures Inv(AddTimer(s, id, t, ok).0)
  {
    var fd := s.timers[t].tfd;
    if AddTimer(s, id, t, ok).1 {
      var s1 := AddContext(s, id, TimerOwner(t), fd, 1, ok).0;
      AddContextKeeps(s, id, TimerOwner(t), fd, 1, ok);
      AddContextTouches(s, id, TimerOwner(t), fd, 1, ok);
      assert s1.ctxMap[fd] == id && s1.heap[id].owner == TimerOwner(t);
      AttachTimer(s, s1, t);
      ContextsFrame(s1, AddTimer(s, id, t, ok).0);
    }
  }

  lemma SwapRemoveDrops(a: seq<int>, i: nat)
    requires i < |a| && NoRepeats(a)
    ensures NoRepeats(SwapRemove(a, i))
    ensures forall u :: u in SwapRemove(a, i) <==> u in a && u != a[i]
  {
    var b := SwapRemove(a, i);
    forall u | u in a && u != a[i] ensures u in b {
      var k :| 0 <= k < |a| && a[k] == u;
      assert if k == |a| - 1 then b[i] == u else b[k] == u;
    }
  }

  lemma DetachTimer(s: State, s1: State, t: int)
    requires TimersOk(s) && MapOk(s) && MapOk(s1) && t in s.timers && t in s.active
    requires OnlyEntry(s, s1, s.timers[t].tfd) && s.timers[t].tfd !in s1.ctxMap
    ensures TimersOk(Detach(s1, t))
  {
    SwapRemoveDrops(s.active, IndexOf(s.active, t));
    assert TimerOwned(s, t);
    forall fd | fd in s.ctxMap && s.heap[s.ctxMap[fd]].owner == TimerOwner(t) ensures fd == s.timers[t].tfd {
      assert TimerEntryOk(s, fd, s.heap[s.ctxMap[fd]].owner);
    }
    forall fd | fd != s.timers[t].tfd ensures SameEntry(s, Detach(s1, t), fd) { assert SameEntry(s, s1, fd); }
    TimerLocally(s, Detach(s1, t), t, s.timers[t].tfd);
  }

  lemma DetachFrame(s: State, t: int)
    requires ContextsOk(s) && t in s.timers && t in s.active
    ensures ContextsOk(Detach(s, t))
  {
    ContextsFrame(s, Detach(s, t));
  }

  lemma UnwatchTimerKeeps(s: State, t: int, stopOk: bool, res: DelResult)
    requires Inv(s) && t in s.timers
    ensures Inv(RemoveTimer(s, t, stopOk, res).0)
  {
    if RemoveTimer(s, t, stopOk, res).1 {
      var fd := s.timers[t].tfd;
      var s1 := RemoveTimerContext(s, fd, res).0;
      RemoveTimerContextKeeps(s, fd, res);
      RemoveTimerContextTouches(s, fd, res);
      DetachTimer(s, s1, t);
      DetachFrame(s1, t);
    }
  }

  lemma NewTimerKeeps(s: State, t: int, tfd: int)
    requires Inv(s) && Legal(s, NewTimer(t, tfd))
    ensures Inv(s.(timers := s.timers[t := TimerObject(1, 1, tfd, false)]))
  {
    var s' := s.(timers := s.timers[t := TimerObject(1, 1, tfd, false)]);
    ContextsFrame(s, s');
    assert TimerOwned(s, t);
    EntriesOfOthers(s, t);
    TimerLocally(s, s', t, tfd);
  }

  lemma DropTimerOwned(s: State, t: int)
    requires TimerOwned(s, t) && MapOk(s) && Legal(s, DropTimer(t))
    ensures TimerOwned(Apply(s, DropTimer(t)).0, t)
  {
  }

  lemma DropTimerFrame(s: State, t: int)
    requires ContextsOk(s) && Legal(s, DropTimer(t))
    ensures ContextsOk(Apply(s, DropTimer(t)).0)
  {
    ContextsFrame(s, Apply(s, DropTimer(t)).0);
  }

  lemma DropTimerKeeps(s: State, t: int)
    requires Inv(s) && Legal(s, DropTimer(t))
    ensures Inv(Apply(s, DropTimer(t)).0)
  {
    assert TimerOwned(s, t);
    DropTimerOwned(s, t);
    DropTimerFrame(s, t);
    EntriesOfOthers(s, t);
    TimerLocally(s, Apply(s, DropTimer(t)).0, t, s.timers[t].tfd);
  }

  /** No map entry belongs to a timer that is not active. */
  lemma EntriesOfOthers(s: State, t: int)
    requires Inv(s)
    ensures forall fd :: fd in s.ctxMap ==> TimerEntryOk(s, fd, s.heap[s.ctxMap[fd]].owner)
    ensures t !in s.active ==> forall fd :: fd in s.ctxMap ==> s.heap[s.ctxMap[fd]].owner != TimerOwner(t)
  {
    forall fd | fd in s.ctxMap ensures TimerEntryOk(s, fd, s.heap[s.ctxMap[fd]].owner) {
      assert s.ctxMap[fd] in s.heap;
    }
  }

  lemma EntryKind(s: State, fd: int)
    requires Inv(s) && NotATimerFd(s, fd)
    ensures fd in s.ctxMap ==> s.heap[s.ctxMap[fd]].owner.SocketOwner?
  {
    if fd in s.ctxMap { assert TimerEntryOk(s, fd, s.heap[s.ctxMap[fd]].owner); }
  }

  lemma AddSockKeeps(s: State, a: Action)
    requires Inv(s) && Legal(s, a) && a.AddSock?
    ensures Inv(Apply(s, a).0)
  {
    EntryKind(s, a.fd);
    AddContextKeeps(s, a.id, SocketOwner(Some(a.sock)), a.fd, a.mask, a.ok);
    AddContextTouches(s, a.id, SocketOwner(Some(a.sock)), a.fd, a.mask, a.ok);
    SocketEntryKeepsTimers(s, Apply(s, a).0, a.fd);
  }

  lemma ModSockKeeps(s: State, a: Action)
    requires Inv(s) && Legal(s, a) && a.ModSock?
    ensures Inv(Apply(s, a).0)
  {
    EntryKind(s, a.fd);
    ModifySocketKeeps(s, a.fd, a.mask, a.allocOk, a.ok);
    ModifyTouches(s, a.fd, a.mask, a.allocOk, a.ok);
    SocketEntryKeepsTimers(s, Apply(s, a).0, a.fd);
  }

  /** A removal that failed leaves a socket's entry behind, never a timer's. */
  lemma RemoveLeavesSocket(s: State, fd: int, res: DelResult)
    requires MapOk(s) && (fd in s.ctxMap ==> s.heap[s.ctxMap[fd]].owner.SocketOwner?)
    ensures var s' := RemoveSocket(s, fd, res).0;
            fd in s'.ctxMap && s'.ctxMap[fd] in s'.heap ==> s'.heap[s'.ctxMap[fd]].owner.SocketOwner?
  {
    if fd in s.ctxMap { UringUnmapTouches(s, fd, Forget(s.heap[s.ctxMap[fd]].owner)); }
  }

  lemma RemoveSocketKeepsInv(s: State, fd: int, res: DelResult)
    requires Inv(s) && NotATimerFd(s, fd)
    ensures Inv(RemoveSocket(s, fd, res).0)
  {
    EntryKind(s, fd);
    RemoveSocketKeeps(s, fd, res);
    RemoveSocketTouches(s, fd, res);
    RemoveLeavesSocket(s, fd, res);
    SocketEntryKeepsTimers(s, RemoveSocket(s, fd, res).0, fd);
  }

  lemma CloseSockKeeps(s: State, a: Action)
    requires Inv(s) && Legal(s, a) && a.CloseSock?
    ensures Inv(Apply(s, a).0)
  {
    var s' := Apply(s, a).0;
    forall d: int ensures Owned(s', d) { assert Owned(s, d); SameOwned(s, s', d); }
    TimersFrame(s, s');
  }

  /** Every call a handler can make keeps the invariant, whatever the kernel and the allocator answer. */
  lemma ApplyKeeps(s: State, a: Action)
    requires Inv(s) && Legal(s, a)
    ensures Inv(Apply(s, a).0)
  {
    match a
    case AddSock(_, _, _, _, _) => AddSockKeeps(s, a);
    case ModSock(_, _, _, _) => ModSockKeeps(s, a);
    case DelSock(fd, res) => RemoveSocketKeepsInv(s, fd, res);
    case CloseSock(sock, fd) => CloseSockKeeps(s, a);
    case NewTimer(t, tfd) => NewTimerKeeps(s, t, tfd);
    case DropTimer(t) => DropTimerKeeps(s, t);
    case WatchTimer(id, t, ok) => WatchTimerKeeps(s, id, t, ok);
    case UnwatchTimer(t, stopOk, res) => UnwatchTimerKeeps(s, t, stopOk, res);
  }
}
