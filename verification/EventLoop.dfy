/**
 The reactor of src/event_loop.c as a state machine over explicit memory.

 `State.heap` holds exactly the `SocketContext` objects that are allocated: a RELEASE that drops the
 last reference deletes the key, so a use after free is a lookup of a key that is not there, and a leak
 is a key that stays.  The io_uring and epoll back ends share one state; `backend` picks the code.
 */
module EventLoop {
  import opened Common

  const FD_LIMIT := 65536
  const MAX_TIMERS := 1024
  const MAX_EVENTS := 64

  datatype Backend = Uring | Epoll

  datatype OpKind = PollAdd | PollUpdate | PollRemove

  /** A submitted ring operation; its user data points into the context. */
  datatype Op = Op(kind: OpKind, ctx: int)

  datatype Owner = SocketOwner(sock: Option<int>) | TimerOwner(timer: int)

  /** `fd` is the descriptor under which the context was entered in the map. */
  datatype Context = Context(refs: int, owner: Owner, fd: int, mask: nat,
                             closing: bool, armed: bool, queued: bool, pending: int)

  /** `users` counts the references that code outside the loop holds. */
  datatype TimerObject = TimerObject(refs: int, users: nat, tfd: int, attached: bool)

  datatype State = State(
    backend: Backend,
    heap: map<int, Context>,          // allocated contexts
    ctxMap: map<int, int>,            // ctx_map: descriptor to context
    rearm: seq<int>,                  // rearm_pending[..rearm_count]
    slots: nat,                       // rearm_capacity
    deferred: seq<int>,               // defer_pending[..defer_count]
    kernel: multiset<Op>,             // submitted operations that have not completed
    pendingTotal: int,                // uring_pending_total
    interest: map<int, int>,          // the epoll set: descriptor to data pointer
    timers: map<int, TimerObject>,    // allocated timers
    active: seq<int>,                 // active_timers[..active_timer_count]
    held: multiset<int>,              // timers retained by the batch being dispatched
    closed: set<int>                  // sockets whose fd is -1
  )

  function Initial(backend: Backend): State {
    State(backend, map[], map[], [], 64, [], multiset{}, 0, map[], map[], [], multiset{}, {})
  }

  // ---------------------------------------------------------------- reference counting

  function Release(s: State, c: int): State
    requires c in s.heap
  {
    if s.heap[c].refs <= 1 then s.(heap := s.heap - {c})
    else s.(heap := s.heap[c := s.heap[c].(refs := s.heap[c].refs - 1)])
  }

  function ReleaseTimer(s: State, t: int): State
    requires t in s.timers
  {
    if s.timers[t].refs <= 1 then s.(timers := s.timers - {t})
    else s.(timers := s.timers[t := s.timers[t].(refs := s.timers[t].refs - 1)])
  }

  /** One more ring operation on `c`: it owns a reference until its completion is consumed. */
  function Submit(s: State, kind: OpKind, c: int): State
    requires c in s.heap
  {
    var x := s.heap[c];
    s.(heap := s.heap[c := x.(refs := x.refs + 1, pending := x.pending + 1)],
       kernel := s.kernel + multiset{Op(kind, c)},
       pendingTotal := s.pendingTotal + 1)
  }

  // ---------------------------------------------------------------- the ownership invariant

  predicate InMap(s: State, c: int)
    requires c in s.heap
  {
    s.heap[c].fd in s.ctxMap && s.ctxMap[s.heap[c].fd] == c
  }

  predicate NoRepeats(q: seq<int>) {
    forall i, j :: 0 <= i < j < |q| ==> q[i] != q[j]
  }

  function OpCount(kernel: multiset<Op>, c: int): nat {
    kernel[Op(PollAdd, c)] + kernel[Op(PollUpdate, c)] + kernel[Op(PollRemove, c)]
  }

  /** The ownership equation of one context, and its flags. */
  predicate CtxOk(s: State, c: int)
    requires c in s.heap
  {
    var x := s.heap[c];
    && x.refs == Bit(InMap(s, c)) + x.pending + Bit(c in s.rearm) + Bit(c in s.deferred)
    && x.refs >= 1
    && x.pending == OpCount(s.kernel, c)
    && s.kernel[Op(PollAdd, c)] == Bit(x.armed)
    && (x.queued <==> c in s.rearm)
    && (x.queued ==> !x.armed)
    && (s.backend.Uring? ==> (x.closing <==> !InMap(s, c)))
    && (s.backend.Epoll? ==> x.refs == 1)
    && (s.backend.Uring? && InMap(s, c) ==> x.owner != SocketOwner(None))
  }

  /** An address that is not allocated has no owner left. */
  predicate Owned(s: State, c: int) {
    if c in s.heap then CtxOk(s, c)
    else OpCount(s.kernel, c) == 0 && c !in s.rearm && c !in s.deferred
  }

  predicate MapOk(s: State) {
    && (forall fd :: fd in s.ctxMap ==> 0 <= fd < FD_LIMIT && s.ctxMap[fd] in s.heap && s.heap[s.ctxMap[fd]].fd == fd)
    && (forall fd :: fd in s.interest ==> fd in s.ctxMap && s.interest[fd] == s.ctxMap[fd])
  }

  predicate QueuesOk(s: State) {
    && NoRepeats(s.rearm) && NoRepeats(s.deferred)
    && s.pendingTotal == |s.kernel| && |s.rearm| <= s.slots
    && (s.backend.Uring? ==> s.deferred == [] && s.interest == map[])
    && (s.backend.Epoll? ==> s.rearm == [] && s.kernel == multiset{})
  }

  ghost predicate ContextsOk(s: State) {
    && (forall c: int :: Owned(s, c))
    && MapOk(s)
    && QueuesOk(s)
  }

  predicate TimerOk(s: State, t: int)
    requires t in s.timers
  {
    var x := s.timers[t];
    && x.refs == x.users + Bit(x.attached) + s.held[t]
    && x.refs >= 1
    && (x.attached <==> t in s.active)
    && (x.attached ==> x.tfd in s.ctxMap && s.ctxMap[x.tfd] in s.heap && s.heap[s.ctxMap[x.tfd]].owner == TimerOwner(t))
  }

  predicate TimerOwned(s: State, t: int) {
    if t in s.timers then TimerOk(s, t) else t !in s.active && s.held[t] == 0
  }

  predicate DistinctTfds(timers: map<int, TimerObject>) {
    forall t, u :: t in timers && u in timers && t != u ==> timers[t].tfd != timers[u].tfd
  }

  ghost predicate TimersOk(s: State) {
    && (forall t: int :: TimerOwned(s, t))
    && NoRepeats(s.active) && |s.active| <= MAX_TIMERS
    && DistinctTfds(s.timers)
    && (forall fd :: fd in s.ctxMap && s.ctxMap[fd] in s.heap ==> TimerEntryOk(s, fd, s.heap[s.ctxMap[fd]].owner))
  }

  /** A map entry that belongs to a timer belongs to an active one, under its own descriptor. */
  predicate TimerEntryOk(s: State, fd: int, owner: Owner) {
    owner.TimerOwner? ==> owner.timer in s.active && owner.timer in s.timers && s.timers[owner.timer].tfd == fd
  }

  /** What every operation of the loop keeps. */
  ghost predicate Inv(s: State) {
    ContextsOk(s) && TimersOk(s)
  }

  // ---------------------------------------------------------------- back-end operations

  function NewContext(owner: Owner, fd: int, mask: nat, armed: bool): Context {
    Context(1, owner, fd, mask, false, armed, false, 0)
  }

  function UringInsert(s: State, id: int, owner: Owner, fd: int, mask: nat): State {
    Submit(s.(heap := s.heap[id := NewContext(owner, fd, mask, true)], ctxMap := s.ctxMap[fd := id]), PollAdd, id)
  }

  function EpollInsert(s: State, id: int, owner: Owner, fd: int, mask: nat): State {
    s.(heap := s.heap[id := NewContext(owner, fd, mask, false)],
       ctxMap := s.ctxMap[fd := id], interest := s.interest[fd := id])
  }

  /** event_backend_add and event_backend_add_timer: `id` is the address malloc returned. */
  function AddContext(s: State, id: int, owner: Owner, fd: int, mask: nat, ok: bool): (State, bool) {
    if fd < 0 || fd >= FD_LIMIT || !ok then (s, false)
    else if s.backend.Epoll? then (EpollInsert(s, id, owner, fd, mask), true)
    else if fd in s.ctxMap then (s, false)
    else (UringInsert(s, id, owner, fd, mask), true)
  }

  /** event_backend_modify; `allocOk` says whether realloc would succeed, `ok` whether the kernel accepted. */
  function ModifySocket(s: State, fd: int, mask: nat, allocOk: bool, ok: bool): (State, bool)
    requires fd in s.ctxMap ==> s.ctxMap[fd] in s.heap
  {
    if fd < 0 || fd >= FD_LIMIT || fd !in s.ctxMap then (s, false)
    else
      var c := s.ctxMap[fd];
      var x := s.heap[c];
      var s1 := s.(heap := s.heap[c := x.(mask := mask)]);
      if s.backend.Epoll? then (if ok then (s1, true) else (s, false))
      else if x.closing then (s, false)
      else if !x.armed then
        if mask != 0 && !x.queued then
          if CanQueue(s, allocOk) then (Enqueue(s1, c), true) else (s1, false)
        else (s1, true)
      else if !ok then (s, false)
      else (Submit(s1, PollUpdate, c), true)
  }

  /** add_to_rearm_queue asks for memory only when the array is full. */
  predicate CanQueue(s: State, allocOk: bool) {
    |s.rearm| < s.slots || allocOk
  }

  /** The capacity of the array after one more entry. */
  function SlotsFor(s: State): nat {
    if |s.rearm| < s.slots then s.slots else if s.slots == 0 then 64 else 2 * s.slots
  }

  /** add_to_rearm_queue together with the reference the queue takes. */
  function Enqueue(s: State, c: int): State
    requires c in s.heap
  {
    var x := s.heap[c];
    s.(heap := s.heap[c := x.(refs := x.refs + 1, queued := true)], rearm := s.rearm + [c], slots := SlotsFor(s))
  }

  datatype DelResult = Deleted | Missing | Failed

  function Forget(owner: Owner): Owner {
    if owner.SocketOwner? then SocketOwner(None) else owner
  }

  /** Drop the map's ownership: outstanding operations and the rearm queue keep their own references. */
  function Unmap(s: State, fd: int, owner: Owner): State
    requires fd in s.ctxMap && s.ctxMap[fd] in s.heap
  {
    var c := s.ctxMap[fd];
    Release(s.(heap := s.heap[c := s.heap[c].(closing := true, owner := owner)], ctxMap := s.ctxMap - {fd}), c)
  }

  /** The part of removal that io_uring shares between sockets and timers. */
  function UringUnmap(s: State, fd: int, owner: Owner): State
    requires fd in s.ctxMap && s.ctxMap[fd] in s.heap
  {
    var c := s.ctxMap[fd];
    Unmap(if s.heap[c].armed then Submit(s, PollRemove, c) else s, fd, owner)
  }

  /** event_backend_remove. */
  function RemoveSocket(s: State, fd: int, res: DelResult): (State, bool)
    requires fd in s.ctxMap ==> s.ctxMap[fd] in s.heap
  {
    if fd < 0 || fd >= FD_LIMIT || fd !in s.ctxMap then (s, false)
    else
      var c := s.ctxMap[fd];
      var x := s.heap[c];
      if s.backend.Uring? then
        if x.closing || (x.armed && res.Failed?) then (s, false)
        else (UringUnmap(s, fd, Forget(x.owner)), true)
      else
        var s1 := s.(heap := s.heap[c := x.(owner := Forget(x.owner))]);
        if res.Failed? then (s1, false)
        else (s1.(ctxMap := s1.ctxMap - {fd}, interest := s1.interest - {fd}, deferred := s1.deferred + [c]), true)
  }

  /** event_backend_remove_timer: epoll releases the context at once. */
  function RemoveTimerContext(s: State, fd: int, res: DelResult): (State, bool)
    requires fd in s.ctxMap ==> s.ctxMap[fd] in s.heap
  {
    if fd < 0 || fd >= FD_LIMIT || fd !in s.ctxMap then (s, false)
    else
      var c := s.ctxMap[fd];
      var x := s.heap[c];
      if s.backend.Uring? then
        if x.closing || (x.armed && res.Failed?) then (s, false)
        else (UringUnmap(s, fd, x.owner), true)
      else if res.Failed? then (s, false)
      else (Release(s.(ctxMap := s.ctxMap - {fd}, interest := s.interest - {fd}), c), true)
  }

  // ---------------------------------------------------------------- timers

  /** The bookkeeping of _addTimer once the back end has accepted the timer. */
  function Attach(s: State, t: int): State
    requires t in s.timers
  {
    var x := s.timers[t];
    s.(timers := s.timers[t := x.(attached := true, refs := x.refs + 1)], active := s.active + [t])
  }

  function AddTimer(s: State, id: int, t: int, ok: bool): (State, bool)
    requires t in s.timers
  {
    var x := s.timers[t];
    if x.attached || |s.active| >= MAX_TIMERS then (s, false)
    else
      var (s1, added) := AddContext(s, id, TimerOwner(t), x.tfd, 1, ok);
      if added then (Attach(s1, t), true) else (s, false)
  }

  /** The position of `t` in the active array, or its length. */
  function IndexOf(a: seq<int>, t: int): (i: nat)
    ensures i <= |a|
    ensures i < |a| ==> a[i] == t && t in a
    ensures i == |a| <==> t !in a
  {
    if a == [] then 0 else if a[0] == t then 0 else 1 + IndexOf(a[1..], t)
  }

  /** The last entry moves into slot `i` and the count drops by one. */
  function SwapRemove(a: seq<int>, i: nat): seq<int>
    requires i < |a|
  {
    a[i := a[|a| - 1]][..|a| - 1]
  }

  /** The bookkeeping of _removeTimer once the back end has let go of the timer. */
  function Detach(s: State, t: int): State
    requires t in s.timers && t in s.active
  {
    ReleaseTimer(s.(timers := s.timers[t := s.timers[t].(attached := false)],
                    active := SwapRemove(s.active, IndexOf(s.active, t))), t)
  }

  function RemoveTimer(s: State, t: int, stopOk: bool, res: DelResult): (State, bool)
    requires t in s.timers
    requires s.timers[t].tfd in s.ctxMap ==> s.ctxMap[s.timers[t].tfd] in s.heap
  {
    if t !in s.active || !stopOk then (s, false)
    else
      var (s1, removed) := RemoveTimerContext(s, s.timers[t].tfd, res);
      if removed then (Detach(s1, t), true) else (s, false)
  }

  // ---------------------------------------------------------------- what handlers may do

  datatype Action =
    | AddSock(id: int, sock: int, fd: int, mask: nat, ok: bool)
    | ModSock(fd: int, mask: nat, allocOk: bool, ok: bool)
    | DelSock(fd: int, res: DelResult)
    | CloseSock(sock: int, fd: int)
    | NewTimer(timer: int, tfd: int)
    | DropTimer(timer: int)
    | WatchTimer(id: int, timer: int, ok: bool)
    | UnwatchTimer(timer: int, stopOk: bool, res: DelResult)

  /** What the trace of a batch records: sockets forgotten and closed, timers removed and added, and callbacks. */
  datatype Mark =
    | Unwatched(ctx: int) | Closed(sock: int) | TimerOff(timer: int) | TimerOn(timer: int)
    | ReadCall(ctx: int) | WriteCall(ctx: int) | TimerCall(timer: int)

  /** A removal makes the context forget its socket when it succeeds, and with epoll also when it fails. */
  predicate Forgets(s: State, fd: int, removed: bool) {
    removed || (s.backend.Epoll? && 0 <= fd < FD_LIMIT && fd in s.ctxMap)
  }

  predicate NotATimerFd(s: State, fd: int) {
    forall t :: t in s.timers ==> s.timers[t].tfd != fd
  }

  /** epoll: the descriptor was closed while its context was in the map, so the kernel no longer knows it. */
  predicate Stale(s: State, fd: int) {
    s.backend.Epoll? && fd in s.ctxMap && fd !in s.interest
  }

  /** epoll: the kernel refuses to add a descriptor that it has, and to modify one that it has not. */
  predicate KernelAdds(s: State, fd: int, ok: bool) {
    s.backend.Epoll? && ok ==> fd !in s.interest
  }

  predicate KernelModifies(s: State, fd: int, ok: bool) {
    s.backend.Epoll? && ok ==> fd in s.interest
  }

  /**
   What the callers owe: malloc returns a free address, descriptors of live timers and sockets differ,
   pointers passed in are live, and (epoll) a socket that was closed without being removed is removed
   before its descriptor is added again.
   */
  predicate Legal(s: State, a: Action) {
    match a
    case AddSock(id, sock, fd, mask, ok) =>
      id !in s.heap && NotATimerFd(s, fd) && KernelAdds(s, fd, ok) && !(ok && Stale(s, fd))
    case ModSock(fd, mask, allocOk, ok) => NotATimerFd(s, fd) && KernelModifies(s, fd, ok)
    case DelSock(fd, res) => NotATimerFd(s, fd)
    case CloseSock(sock, fd) => NotATimerFd(s, fd)
    case NewTimer(t, tfd) => t !in s.timers && NotATimerFd(s, tfd)
    case DropTimer(t) => t in s.timers && s.timers[t].users > 0
    case WatchTimer(id, t, ok) =>
      id !in s.heap && t in s.timers
      && (!s.timers[t].attached ==> KernelAdds(s, s.timers[t].tfd, ok) && !(ok && Stale(s, s.timers[t].tfd)))
    case UnwatchTimer(t, stopOk, res) => t in s.timers
  }

  function Apply(s: State, a: Action): (State, seq<Mark>)
    requires MapOk(s) && Legal(s, a)
  {
    match a
    case AddSock(id, sock, fd, mask, ok) => (AddContext(s, id, SocketOwner(Some(sock)), fd, mask, ok).0, [])
    case ModSock(fd, mask, allocOk, ok) => (ModifySocket(s, fd, mask, allocOk, ok).0, [])
    case DelSock(fd, res) =>
      var (s', ok) := RemoveSocket(s, fd, res);
      (s', if Forgets(s, fd, ok) then [Unwatched(s.ctxMap[fd])] else [])
    case CloseSock(sock, fd) => (s.(closed := s.closed + {sock}, interest := s.interest - {fd}), [Closed(sock)])
    case NewTimer(t, tfd) => (s.(timers := s.timers[t := TimerObject(1, 1, tfd, false)]), [])
    case DropTimer(t) =>
      (ReleaseTimer(s.(timers := s.timers[t := s.timers[t].(users := s.timers[t].users - 1)]), t), [])
    case WatchTimer(id, t, ok) =>
      var (s', added) := AddTimer(s, id, t, ok);
      (s', if added then [TimerOn(t)] else [])
    case UnwatchTimer(t, stopOk, res) =>
      var (s', removed) := RemoveTimer(s, t, stopOk, res);
      (s', if removed then [TimerOff(t)] else [])
  }
}
