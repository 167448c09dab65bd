/**
 What the loop is for, seen by its clients: each descriptor is watched for an owner with a mask or not at all,
 and (io_uring) no watched descriptor is lost, neither polled by the kernel nor waiting to be polled again.
 */
module EventLoopWatch {
  import opened Common
  import opened EventLoop
  import opened EventLoopInvariant
  import opened EventLoopRun
  import opened EventLoopBatch
  import opened EventLoopDispatch
  import opened EventLoopSafety

  // ---------------------------------------------------------------- the watched descriptors

  datatype Watched = Watched(owner: Owner, mask: nat)

  /** For whom and for what the descriptor `f` is watched. */
  function Watch(s: State, f: int): Option<Watched> {
    if f in s.ctxMap && s.ctxMap[f] in s.heap
    then Some(Watched(s.heap[s.ctxMap[f]].owner, s.heap[s.ctxMap[f]].mask))
    else None
  }

  /** A successful call sets the entry of one descriptor and leaves all others. */
  function Set(s: State, fd: int, w: Option<Watched>, f: int): Option<Watched> {
    if f == fd then w else Watch(s, f)
  }

  lemma AddWatches(s: State, id: int, owner: Owner, fd: int, mask: nat, ok: bool, f: int)
    requires MapOk(s) && id !in s.heap
    ensures var (s', added) := AddContext(s, id, owner, fd, mask, ok);
            && (added <==> 0 <= fd < FD_LIMIT && ok && (s.backend.Uring? ==> Watch(s, fd) == None))
            && Watch(s', f) == if added then Set(s, fd, Some(Watched(owner, mask)), f) else Watch(s, f)
  {
  }

  /** The rearm array is full and cannot grow for a context that is neither polled nor queued. */
  predicate Stuck(s: State, fd: int, mask: nat, allocOk: bool)
    requires fd in s.ctxMap && s.ctxMap[fd] in s.heap
  {
    var x := s.heap[s.ctxMap[fd]];
    s.backend.Uring? && !x.closing && !x.armed && !x.queued && mask != 0 && !CanQueue(s, allocOk)
  }

  /** A call that reports failure leaves everything as it was, unless it is stuck: then the new mask stays. */
  lemma ModifyWatches(s: State, fd: int, mask: nat, allocOk: bool, ok: bool, f: int)
    requires MapOk(s)
    ensures var (s', done) := ModifySocket(s, fd, mask, allocOk, ok);
            && (done ==> Watch(s, fd).Some? && !Stuck(s, fd, mask, allocOk))
            && Watch(s', f) == if fd in s.ctxMap && (done || Stuck(s, fd, mask, allocOk))
                               then Set(s, fd, Some(Watch(s, fd).value.(mask := mask)), f) else Watch(s, f)
  {
  }

  lemma UnmapWatches(s: State, fd: int, owner: Owner, f: int)
    requires MapOk(s) && s.backend.Uring? && fd in s.ctxMap
    ensures Watch(UringUnmap(s, fd, owner), f) == Set(s, fd, None, f)
  {
  }

  /** A refused removal keeps the entry, though epoll has forgotten the socket by then. */
  lemma RemoveWatches(s: State, fd: int, res: DelResult, f: int)
    requires MapOk(s)
    ensures var (s', removed) := RemoveSocket(s, fd, res);
            && (removed ==> Watch(s, fd).Some?)
            && Watch(s', f) == if removed then Set(s, fd, None, f)
                               else if fd in s.ctxMap && s.backend.Epoll?
                               then Set(s, fd, Some(Watched(Forget(Watch(s, fd).value.owner), Watch(s, fd).value.mask)), f)
                               else Watch(s, f)
  {
    if s.backend.Uring? && fd in s.ctxMap { UnmapWatches(s, fd, Forget(s.heap[s.ctxMap[fd]].owner), f); }
  }

  lemma RemoveTimerWatches(s: State, fd: int, res: DelResult, f: int)
    requires MapOk(s)
    ensures var (s', removed) := RemoveTimerContext(s, fd, res);
            && (removed ==> Watch(s, fd).Some?)
            && Watch(s', f) == if removed then Set(s, fd, None, f) else Watch(s, f)
  {
    if s.backend.Uring? && fd in s.ctxMap { UnmapWatches(s, fd, s.heap[s.ctxMap[fd]].owner, f); }
  }

  predicate Polled(s: State, fd: int) {
    s.backend.Uring? && fd in s.ctxMap && s.ctxMap[fd] in s.heap && s.heap[s.ctxMap[fd]].armed
  }

  /** Whether the back end takes the descriptor on. */
  predicate Accepted(s: State, fd: int, ok: bool) {
    0 <= fd < FD_LIMIT && ok && (s.backend.Uring? ==> Watch(s, fd) == None)
  }

  /** Whether the back end lets the descriptor go: io_uring asks the kernel only about a poll in flight. */
  predicate Dropped(s: State, fd: int, res: DelResult) {
    Watch(s, fd).Some? && (res.Failed? ==> s.backend.Uring? && !Polled(s, fd))
  }

  /** What a call does to the entry of the descriptor `f`. */
  function Outcome(s: State, a: Action, f: int): Option<Watched>
    requires Legal(s, a)
  {
    var w := Watch(s, f);
    match a
    case AddSock(_, sock, fd, mask, ok) =>
      if f == fd && Accepted(s, fd, ok) then Some(Watched(SocketOwner(Some(sock)), mask)) else w
    case ModSock(fd, mask, _, ok) =>
      if f == fd && w.Some? && (ok || (s.backend.Uring? && !Polled(s, fd))) then Some(w.value.(mask := mask)) else w
    case DelSock(fd, res) =>
      if f != fd || w.None? then w
      else if Dropped(s, fd, res) then None
      else if s.backend.Epoll? then Some(w.value.(owner := Forget(w.value.owner)))
      else w
    case WatchTimer(_, t, ok) =>
      var x := s.timers[t];
      if f == x.tfd && !x.attached && |s.active| < MAX_TIMERS && Accepted(s, f, ok) then Some(Watched(TimerOwner(t), 1)) else w
    case UnwatchTimer(t, stopOk, res) =>
      if f == s.timers[t].tfd && t in s.active && stopOk && Dropped(s, f, res) then None else w
    case _ => w
  }

  lemma UnwatchWatches(s: State, t: int, stopOk: bool, res: DelResult, f: int)
    requires Inv(s) && t in s.timers
    ensures Watch(RemoveTimer(s, t, stopOk, res).0, f) == Outcome(s, UnwatchTimer(t, stopOk, res), f)
  {
    if t in s.active && stopOk {
      TimerIsMapped(s, t);
      DetachedWatches(s, t, s.timers[t].tfd, res, f);
    }
  }

  lemma TimerIsMapped(s: State, t: int)
    requires Inv(s) && t in s.active
    ensures t in s.timers && MapOk(s) && s.timers[t].tfd in s.ctxMap && Owned(s, s.ctxMap[s.timers[t].tfd])
  {
    assert TimerOwned(s, t);
    assert Owned(s, s.ctxMap[s.timers[t].tfd]);
  }

  lemma DetachedWatches(s: State, t: int, fd: int, res: DelResult, f: int)
    requires MapOk(s) && t in s.active && t in s.timers && fd == s.timers[t].tfd && fd in s.ctxMap && Owned(s, s.ctxMap[fd])
    ensures Watch(RemoveTimer(s, t, true, res).0, f) == if f == fd && Dropped(s, f, res) then None else Watch(s, f)
  {
    RemoveTimerWatches(s, fd, res, f);
  }

  lemma AddOutcome(s: State, a: Action, f: int)
    requires Inv(s) && Legal(s, a) && (a.AddSock? || a.WatchTimer?)
    ensures Watch(Apply(s, a).0, f) == Outcome(s, a, f)
  {
    if a.AddSock? {
      AddWatches(s, a.id, SocketOwner(Some(a.sock)), a.fd, a.mask, a.ok, f);
    } else {
      AddWatches(s, a.id, TimerOwner(a.timer), s.timers[a.timer].tfd, 1, a.ok, f);
    }
  }

  lemma ModOutcome(s: State, fd: int, mask: nat, allocOk: bool, ok: bool, f: int)
    requires Inv(s) && Legal(s, ModSock(fd, mask, allocOk, ok))
    ensures Watch(ModifySocket(s, fd, mask, allocOk, ok).0, f) == Outcome(s, ModSock(fd, mask, allocOk, ok), f)
  {
    if fd in s.ctxMap { assert Owned(s, s.ctxMap[fd]); }
    ModifyWatches(s, fd, mask, allocOk, ok, f);
  }

  lemma DelOutcome(s: State, fd: int, res: DelResult, f: int)
    requires Inv(s) && NotATimerFd(s, fd)
    ensures Watch(RemoveSocket(s, fd, res).0, f) == Outcome(s, DelSock(fd, res), f)
  {
    if fd in s.ctxMap { assert Owned(s, s.ctxMap[fd]); }
    RemoveWatches(s, fd, res, f);
  }

  /** Every call changes the entry of its own descriptor, as its answers say, and no other. */
  lemma ApplyWatches(s: State, a: Action, f: int)
    requires Inv(s) && Legal(s, a)
    ensures Watch(Apply(s, a).0, f) == Outcome(s, a, f)
  {
    match a
    case ModSock(fd, mask, allocOk, ok) => ModOutcome(s, fd, mask, allocOk, ok, f);
    case DelSock(fd, res) => DelOutcome(s, fd, res, f);
    case UnwatchTimer(t, stopOk, res) => UnwatchWatches(s, t, stopOk, res, f);
    case CloseSock(_, _) =>
    case NewTimer(_, _) =>
    case DropTimer(_) =>
    case _ => AddOutcome(s, a, f);
  }

  lemma DrainOneWatches(s: State, ok: bool, f: int)
    requires ContextsOk(s) && s.backend.Uring? && s.rearm != [] && s.rearm[0] in s.heap
    ensures Watch(DrainOne(s, ok), f) == Watch(s, f)
  {
    assert Owned(s, s.rearm[0]);
  }

  lemma CompleteWatches(s: State, q: Cqe, f: int)
    requires ContextsOk(s) && s.backend.Uring? && q.op in s.kernel && q.op.ctx in s.heap
    ensures Watch(Complete(s, q), f) == Watch(s, f)
  {
    OutstandingIsLive(s, q.op);
    assert Owned(s, q.op.ctx);
  }

  lemma FlushOneWatches(s: State, f: int)
    requires ContextsOk(s) && s.deferred != [] && s.deferred[0] in s.heap
    ensures Watch(FlushOne(s), f) == Watch(s, f)
  {
    assert Owned(s, s.deferred[0]);
  }

  lemma {:induction false} DrainWatches(s: State, oks: seq<bool>, f: int)
    requires Inv(s) && s.backend.Uring? && |oks| <= |s.rearm|
    ensures Watch(Drain(s, oks), f) == Watch(s, f)
    decreases |oks|
  {
    if oks != [] {
      DrainOneKeeps(s, oks[0]);
      DrainOneHolds(s, oks[0]);
      DrainOneWatches(s, oks[0], f);
      DrainWatches(DrainOne(s, oks[0]), oks[1..], f);
    }
  }

  lemma {:induction false} CompletionsWatch(s: State, cqes: seq<Cqe>, events: seq<Event>, f: int)
    requires Inv(s) && s.backend.Uring? && OpsOf(cqes) <= s.kernel
    ensures Watch(Completions(s, cqes, events).state, f) == Watch(s, f)
    decreases |cqes|
  {
    if cqes == [] || (cqes[0].op.kind.PollAdd? && |events| >= MAX_EVENTS) {
    } else {
      CompletionStep(s, cqes);
      var q := cqes[0];
      CompleteWatches(s, q, f);
      CompletionsWatch(Complete(s, q), cqes[1..], events + Reported(s.heap[q.op.ctx], q), f);
    }
  }

  /** Only calls change what is watched: no wait does, whatever the kernel answers. */
  lemma WaitWatches(s: State, w: Answers, f: int)
    requires Inv(s) && Answerable(s, w)
    ensures Watch(Wait(s, w).0, f) == Watch(s, f)
  {
    if w.UringAnswers? && w.flushOk {
      DrainWatches(s, w.oks, f);
      CompletionsWatch(Drain(s, w.oks), w.cqes, [], f);
    }
  }

  /** The entry of a descriptor that belongs to no timer. */
  predicate Entry(s: State, f: int, w: Option<Watched>) {
    Watch(s, f) == w && NotATimerFd(s, f)
  }

  predicate Spares(a: Action, f: int) {
    match a
    case AddSock(_, _, fd, _, _) => fd != f
    case ModSock(fd, _, _, _) => fd != f
    case DelSock(fd, _) => fd != f
    case NewTimer(_, tfd) => tfd != f
    case _ => true
  }

  /** A timer after the call is the one it created, or was there before with the same descriptor. */
  predicate SameTfd(s: State, a: Action, s': State, t: int) {
    t in s'.timers ==> (a.NewTimer? && s'.timers[t].tfd == a.tfd) || (t in s.timers && s'.timers[t].tfd == s.timers[t].tfd)
  }

  lemma DetachTimers(s: State, u: int, t: int)
    requires u in s.timers && u in s.active
    ensures t in Detach(s, u).timers ==> t in s.timers && Detach(s, u).timers[t].tfd == s.timers[t].tfd
  {
  }

  lemma UnwatchTimers(s: State, u: int, stopOk: bool, res: DelResult, t: int)
    requires Inv(s) && u in s.timers
    ensures SameTfd(s, UnwatchTimer(u, stopOk, res), RemoveTimer(s, u, stopOk, res).0, t)
  {
    var (s1, removed) := RemoveTimerContext(s, s.timers[u].tfd, res);
    RemoveTimerContextTouches(s, s.timers[u].tfd, res);
    if u in s.active && stopOk && removed { DetachTimers(s1, u, t); }
  }

  lemma WatchTimers(s: State, id: int, u: int, ok: bool, t: int)
    requires Inv(s) && u in s.timers && id !in s.heap
    ensures SameTfd(s, WatchTimer(id, u, ok), AddTimer(s, id, u, ok).0, t)
  {
    AddContextTouches(s, id, TimerOwner(u), s.timers[u].tfd, 1, ok);
  }

  lemma ApplyTimers(s: State, a: Action, t: int)
    requires Inv(s) && Legal(s, a)
    ensures SameTfd(s, a, Apply(s, a).0, t)
  {
    match a
    case AddSock(id, sock, fd, mask, ok) => AddContextTouches(s, id, SocketOwner(Some(sock)), fd, mask, ok);
    case ModSock(fd, mask, allocOk, ok) => ModifyTouches(s, fd, mask, allocOk, ok);
    case DelSock(fd, res) => RemoveSocketTouches(s, fd, res);
    case WatchTimer(id, u, ok) => WatchTimers(s, id, u, ok, t);
    case UnwatchTimer(u, stopOk, res) => UnwatchTimers(s, u, stopOk, res, t);
    case CloseSock(_, _) =>
    case NewTimer(_, _) =>
    case DropTimer(_) =>
  }

  lemma ApplySpares(s: State, a: Action, f: int, w: Option<Watched>)
    requires Inv(s) && Legal(s, a) && Spares(a, f) && Entry(s, f, w)
    ensures Entry(Apply(s, a).0, f, w)
  {
    ApplyWatches(s, a, f);
    forall t | t in Apply(s, a).0.timers ensures Apply(s, a).0.timers[t].tfd != f { ApplyTimers(s, a, t); }
  }

  lemma WaitTimers(s: State, w: Answers)
    requires Inv(s) && Answerable(s, w)
    ensures Wait(s, w).0.timers == s.timers
  {
    if w.UringAnswers? && w.flushOk {
      DrainTimers(s, w.oks);
      CompletionsTimers(Drain(s, w.oks), w.cqes, []);
    }
  }

  lemma {:induction false} DrainTimers(s: State, oks: seq<bool>)
    requires Inv(s) && s.backend.Uring? && |oks| <= |s.rearm|
    ensures Drain(s, oks).timers == s.timers
    decreases |oks|
  {
    if oks != [] {
      DrainOneKeeps(s, oks[0]);
      DrainOneHolds(s, oks[0]);
      assert DrainOne(s, oks[0]).timers == s.timers;
      DrainTimers(DrainOne(s, oks[0]), oks[1..]);
    }
  }

  lemma {:induction false} CompletionsTimers(s: State, cqes: seq<Cqe>, events: seq<Event>)
    requires Inv(s) && s.backend.Uring? && OpsOf(cqes) <= s.kernel
    ensures Completions(s, cqes, events).state.timers == s.timers
    decreases |cqes|
  {
    if cqes == [] || (cqes[0].op.kind.PollAdd? && |events| >= MAX_EVENTS) {
    } else {
      CompletionStep(s, cqes);
      var q := cqes[0];
      CompleteEvolves(s, q, q.op.ctx);
      CompletionsTimers(Complete(s, q), cqes[1..], events + Reported(s.heap[q.op.ctx], q));
    }
  }

  lemma HoldEntry(s: State, t: int, f: int, w: Option<Watched>)
    requires t in s.timers && Entry(s, f, w)
    ensures Entry(Hold(s, t), f, w) && Entry(LetGo(s, t), f, w)
  {
    LetGoFields(s, t);
  }

  lemma EntryIsSteady(f: int, w: Option<Watched>)
    ensures SteadyRun((s: State) => Entry(s, f, w), (a: Action) => Spares(a, f), (w: Answers) => true)
  {
    forall s: State, a: Action | Inv(s) && Legal(s, a) && Spares(a, f) && Entry(s, f, w) ensures Entry(Apply(s, a).0, f, w) {
      ApplySpares(s, a, f, w);
    }
    forall s: State, t: int | t in s.timers && Entry(s, f, w) ensures Entry(Hold(s, t), f, w) && Entry(LetGo(s, t), f, w) {
      HoldEntry(s, t, f, w);
    }
    forall s: State, r: Answers | Inv(s) && Answerable(s, r) && Entry(s, f, w) ensures Entry(Wait(s, r).0, f, w) {
      WaitWatches(s, r, f);
      WaitTimers(s, r);
    }
    forall s: State | Inv(s) && s.deferred != [] && s.deferred[0] in s.heap && Entry(s, f, w) ensures Entry(FlushOne(s), f, w) {
      FlushOneWatches(s, f);
    }
  }

  /** Over any run, a descriptor that no call names keeps its owner and its mask, or stays unwatched. */
  lemma EveryRunSpares(s: State, steps: seq<Step>, f: int)
    requires Rest(s) && LegalRun(s, steps) && NotATimerFd(s, f)
    requires forall i :: 0 <= i < |steps| ==> FairStep(steps[i], (a: Action) => Spares(a, f), (w: Answers) => true)
    ensures Watch(Run(s, steps), f) == Watch(s, f)
  {
    var w := Watch(s, f);
    EntryIsSteady(f, w);
    EveryRunSteady((s: State) => Entry(s, f, w), (a: Action) => Spares(a, f), (w: Answers) => true, s, steps);
  }

  // ---------------------------------------------------------------- no lost wake-ups

  /** A watched context with a mask is polled, or queued to be polled again. */
  predicate Awake(s: State, c: int) {
    s.backend.Uring? && c in s.heap && InMap(s, c) && s.heap[c].mask != 0 ==> s.heap[c].armed || s.heap[c].queued
  }

  ghost predicate AllAwake(s: State) {
    forall c: int :: Awake(s, c)
  }

  lemma AddAwake(s: State, id: int, owner: Owner, fd: int, mask: nat, ok: bool, c: int)
    requires MapOk(s) && id !in s.heap && Awake(s, c)
    ensures Awake(AddContext(s, id, owner, fd, mask, ok).0, c)
  {
  }

  lemma ModifyAwake(s: State, fd: int, mask: nat, allocOk: bool, ok: bool, c: int)
    requires MapOk(s) && Owned(s, c) && Awake(s, c)
    ensures Awake(ModifySocket(s, fd, mask, allocOk, ok).0, c) <==>
              !(fd in s.ctxMap && s.ctxMap[fd] == c && Stuck(s, fd, mask, allocOk))
  {
  }

  lemma UnmapAwake(s: State, fd: int, owner: Owner, c: int)
    requires MapOk(s) && s.backend.Uring? && fd in s.ctxMap && Awake(s, c)
    ensures Awake(UringUnmap(s, fd, owner), c)
  {
  }

  lemma RemoveAwake(s: State, fd: int, res: DelResult, c: int)
    requires MapOk(s) && Awake(s, c)
    ensures Awake(RemoveSocket(s, fd, res).0, c) && Awake(RemoveTimerContext(s, fd, res).0, c)
  {
    if s.backend.Uring? && fd in s.ctxMap {
      UnmapAwake(s, fd, s.heap[s.ctxMap[fd]].owner, c);
      UnmapAwake(s, fd, Forget(s.heap[s.ctxMap[fd]].owner), c);
    }
  }

  /** The call needs the rearm array to grow for `c`, and it cannot. */
  predicate Starves(s: State, a: Action, c: int)
    requires MapOk(s)
  {
    a.ModSock? && a.fd in s.ctxMap && s.ctxMap[a.fd] == c && Stuck(s, a.fd, a.mask, a.allocOk)
  }

  /** A call puts a context to sleep exactly when it starves it. */
  lemma ApplyAwake(s: State, a: Action, c: int)
    requires Inv(s) && Legal(s, a) && Awake(s, c)
    ensures Awake(Apply(s, a).0, c) <==> !Starves(s, a, c)
  {
    match a
    case AddSock(id, sock, fd, mask, ok) => AddAwake(s, id, SocketOwner(Some(sock)), fd, mask, ok, c);
    case ModSock(_, _, _, _) => ModSockAwake(s, a, c);
    case DelSock(fd, res) => RemoveAwake(s, fd, res, c);
    case WatchTimer(id, t, ok) => WatchAwake(s, id, t, ok, c);
    case UnwatchTimer(t, stopOk, res) => UnwatchAwake(s, t, stopOk, res, c);
    case _ =>
  }

  lemma ModSockAwake(s: State, a: Action, c: int)
    requires Inv(s) && Legal(s, a) && Awake(s, c) && a.ModSock?
    ensures Awake(Apply(s, a).0, c) <==> !Starves(s, a, c)
  {
    assert Owned(s, c);
    ModifyAwake(s, a.fd, a.mask, a.allocOk, a.ok, c);
  }

  lemma WatchAwake(s: State, id: int, t: int, ok: bool, c: int)
    requires MapOk(s) && id !in s.heap && t in s.timers && Awake(s, c)
    ensures Awake(AddTimer(s, id, t, ok).0, c)
  {
    AddAwake(s, id, TimerOwner(t), s.timers[t].tfd, 1, ok, c);
  }

  lemma DetachAwake(s: State, t: int, c: int)
    requires t in s.timers && t in s.active && Awake(s, c)
    ensures Awake(Detach(s, t), c)
  {
  }

  lemma UnwatchAwake(s: State, t: int, stopOk: bool, res: DelResult, c: int)
    requires Inv(s) && t in s.timers && Awake(s, c)
    ensures Awake(RemoveTimer(s, t, stopOk, res).0, c)
  {
    var (s1, removed) := RemoveTimerContext(s, s.timers[t].tfd, res);
    RemoveAwake(s, s.timers[t].tfd, res, c);
    RemoveTimerContextTouches(s, s.timers[t].tfd, res);
    if t in s.active && stopOk && removed { DetachAwake(s1, t, c); }
  }

  lemma DrainOneAwake(s: State, ok: bool, c: int)
    requires ContextsOk(s) && s.backend.Uring? && s.rearm != [] && s.rearm[0] in s.heap && Awake(s, c)
    ensures Awake(DrainOne(s, ok), c)
  {
    assert Owned(s, s.rearm[0]);
  }

  lemma {:induction false} DrainAwake(s: State, oks: seq<bool>, c: int)
    requires Inv(s) && s.backend.Uring? && |oks| <= |s.rearm| && Awake(s, c)
    ensures Awake(Drain(s, oks), c)
    decreases |oks|
  {
    if oks != [] {
      DrainOneKeeps(s, oks[0]);
      DrainOneHolds(s, oks[0]);
      DrainOneAwake(s, oks[0], c);
      DrainAwake(DrainOne(s, oks[0]), oks[1..], c);
    }
  }

  /** A completion loses a descriptor exactly when its context had to be queued, the array was full and could not grow. */
  lemma CompleteAwake(s: State, q: Cqe, c: int)
    requires Inv(s) && s.backend.Uring? && q.op in s.kernel && q.op.ctx in s.heap && Awake(s, c)
    ensures Awake(Complete(s, q), c) <==> !(c == q.op.ctx && NoRoom(s, q))
  {
    OutstandingIsLive(s, q.op);
    assert Owned(s, q.op.ctx);
  }

  predicate PlentyCqes(cqes: seq<Cqe>) {
    forall i :: 0 <= i < |cqes| ==> cqes[i].allocOk
  }

  lemma {:induction false} CompletionsAwake(s: State, cqes: seq<Cqe>, events: seq<Event>, c: int)
    requires Inv(s) && s.backend.Uring? && OpsOf(cqes) <= s.kernel && PlentyCqes(cqes) && Awake(s, c)
    ensures Awake(Completions(s, cqes, events).state, c)
    decreases |cqes|
  {
    if cqes == [] || (cqes[0].op.kind.PollAdd? && |events| >= MAX_EVENTS) {
    } else {
      CompletionStep(s, cqes);
      var q := cqes[0];
      var x := s.heap[q.op.ctx];
      CompleteAwake(s, q, c);
      CompletionsAwake(Complete(s, q), cqes[1..], events + Reported(x, q), c);
    }
  }

  predicate PlentyAnswers(w: Answers) {
    w.UringAnswers? ==> PlentyCqes(w.cqes)
  }

  lemma WaitAwake(s: State, w: Answers, c: int)
    requires Inv(s) && Answerable(s, w) && PlentyAnswers(w) && Awake(s, c)
    ensures Awake(Wait(s, w).0, c)
  {
    if w.UringAnswers? && w.flushOk {
      DrainAwake(s, w.oks, c);
      CompletionsAwake(Drain(s, w.oks), w.cqes, [], c);
    }
  }

  predicate Plenty(a: Action) {
    a.ModSock? ==> a.allocOk
  }

  lemma AwakeIsSteady(c: int)
    ensures SteadyRun((s: State) => Awake(s, c), Plenty, PlentyAnswers)
  {
    forall s: State, a: Action | Inv(s) && Legal(s, a) && Plenty(a) && Awake(s, c) ensures Awake(Apply(s, a).0, c) {
      ApplyAwake(s, a, c);
    }
    forall s: State, w: Answers | Inv(s) && Answerable(s, w) && PlentyAnswers(w) && Awake(s, c) ensures Awake(Wait(s, w).0, c) {
      WaitAwake(s, w, c);
    }
  }

  /** No run in which the rearm array can grow loses a wake-up: every watched context stays awake. */
  lemma EveryRunAwake(s: State, steps: seq<Step>)
    requires Rest(s) && LegalRun(s, steps) && AllAwake(s)
    requires forall i :: 0 <= i < |steps| ==> FairStep(steps[i], Plenty, PlentyAnswers)
    ensures AllAwake(Run(s, steps))
  {
    forall c: int ensures Awake(Run(s, steps), c) {
      assert Awake(s, c);
      AwakeIsSteady(c);
      EveryRunSteady((s: State) => Awake(s, c), Plenty, PlentyAnswers, s, steps);
    }
  }

  // ---------------------------------------------------------------- what the next wait polls

  lemma DrainOneShrinks(s: State)
    requires s.rearm != [] && s.rearm[0] in s.heap
    ensures |DrainOne(s, true).rearm| == |s.rearm| - 1
  {
  }

  lemma {:induction false} DrainEmpties(s: State, oks: seq<bool>)
    requires Inv(s) && s.backend.Uring? && |oks| == |s.rearm| && (forall i :: 0 <= i < |oks| ==> oks[i])
    ensures Drain(s, oks).rearm == []
    decreases |oks|
  {
    if oks != [] {
      DrainOneKeeps(s, oks[0]);
      DrainOneHolds(s, oks[0]);
      DrainOneShrinks(s);
      DrainEmpties(DrainOne(s, oks[0]), oks[1..]);
    }
  }

  /** When the ring has room, every watched descriptor is polled exactly once by the time the loop sleeps. */
  lemma SleepsPolling(s: State, oks: seq<bool>, f: int)
    requires Inv(s) && s.backend.Uring? && AllAwake(s) && Watch(s, f).Some? && Watch(s, f).value.mask != 0
    requires |oks| == |s.rearm| && (forall i :: 0 <= i < |oks| ==> oks[i])
    ensures var s' := Drain(s, oks);
            f in s'.ctxMap && s'.kernel[Op(PollAdd, s'.ctxMap[f])] == 1
  {
    var s' := Drain(s, oks);
    DrainWatches(s, oks, f);
    DrainEmpties(s, oks);
    var c := s'.ctxMap[f];
    assert Awake(s, c);
    DrainAwake(s, oks, c);
    assert Owned(s', c);
  }
}
