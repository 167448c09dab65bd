/**
 Which callbacks event_loop_run makes.  The loop decides from the fields of contexts and timers; here the decision
 is made from history alone: what the batch found when it began, and what handlers have done since.  Both agree.
 */
module EventLoopCalls {
  import opened Common
  import opened EventLoop
  import opened EventLoopInvariant
  import opened EventLoopRun
  import opened EventLoopBatch
  import opened EventLoopDispatch

  // ---------------------------------------------------------------- a dispatcher that only knows the history

  /** The socket of context `c` was there when the batch began in `s0`, and since then was neither removed nor closed. */
  predicate Open(s0: State, tr: seq<Mark>, c: int) {
    && c in s0.heap && s0.heap[c].owner.SocketOwner? && s0.heap[c].owner.sock.Some? && Unwatched(c) !in tr
    && !Shut(s0, tr, s0.heap[c].owner.sock.value)
  }

  /** Socket `k` was closed before the batch or in it. */
  predicate Shut(s0: State, tr: seq<Mark>, k: int) {
    k in s0.closed || Closed(k) in tr
  }

  /** The last addition or removal of timer `t`, or else the beginning of the batch, left it running. */
  predicate On(s0: State, tr: seq<Mark>, t: int)
    decreases |tr|
  {
    if tr == [] then t in s0.timers && s0.timers[t].attached
    else
      var m := tr[|tr| - 1];
      m == TimerOn(t) || (m != TimerOff(t) && On(s0, tr[..|tr| - 1], t))
  }

  /** A callback that is due is recorded and its handler runs. */
  ghost function Call(due: bool, mark: Mark, s: State, handler: seq<Action>): (State, seq<Mark>) {
    if due && Inv(s) && LegalScript(s, handler) then
      var (s', m) := RunScript(s, handler);
      (s', [mark] + m)
    else (s, if due then [mark] else [])
  }

  /**
   One event: on_timer for a timer that is running; on_readable for a fault or readiness to read; then on_writable for
   readiness to write without a fault, unless the first handler took the socket away.
   */
  ghost function Due(s0: State, s: State, tr: seq<Mark>, e: Event, script: Script): (State, seq<Mark>) {
    var (s1, m1) := DueFirst(s0, s, tr, e, script);
    match e
    case TimerEvent(t) => (if t in s1.timers then LetGo(s1, t) else s1, m1)
    case SocketEvent(c, readable, writable, fault) =>
      var (s2, m2) := Call(!fault && writable && Open(s0, tr + m1, c), WriteCall(c), s1, script.second);
      (s2, m1 + m2)
  }

  ghost function DueFirst(s0: State, s: State, tr: seq<Mark>, e: Event, script: Script): (State, seq<Mark>) {
    match e
    case TimerEvent(t) => Call(On(s0, tr, t), TimerCall(t), s, script.first)
    case SocketEvent(c, readable, _, fault) => Call(Open(s0, tr, c) && (fault || readable), ReadCall(c), s, script.first)
  }

  ghost function ByHistory(s0: State, s: State, tr: seq<Mark>, events: seq<Event>, scripts: seq<Script>): (State, seq<Mark>)
    requires |scripts| == |events|
    decreases |events|
  {
    if events == [] then (s, [])
    else
      var (s1, m1) := Due(s0, s, tr, events[0], scripts[0]);
      var (s2, m2) := ByHistory(s0, s1, tr + m1, events[1..], scripts[1..]);
      (s2, m1 + m2)
  }

  // ---------------------------------------------------------------- the state remembers the history

  /** While context `c` is allocated, it has its first socket or, once that was recorded, none. */
  predicate Knows(s0: State, s: State, tr: seq<Mark>, c: int) {
    && c in s0.heap && s0.heap[c].owner.SocketOwner?
    && (c in s.heap ==> s.heap[c].owner == if Unwatched(c) in tr then SocketOwner(None) else s0.heap[c].owner)
  }

  predicate Running(s: State, t: int) {
    t in s.timers && s.timers[t].attached
  }

  ghost predicate Tracks(s0: State, s: State, tr: seq<Mark>) {
    && (forall k: int :: Shut(s0, tr, k) <==> k in s.closed)
    && (forall t: int :: Running(s, t) <==> On(s0, tr, t))
  }

  lemma CallableIsOpen(s0: State, s: State, tr: seq<Mark>, c: int)
    requires Knows(s0, s, tr, c) && Tracks(s0, s, tr) && Live(s, c)
    ensures Callable(s, c) <==> Open(s0, tr, c)
  {
    var first := s0.heap[c].owner.sock;
    if first.Some? { assert Shut(s0, tr, first.value) <==> first.value in s.closed; }
  }

  lemma OnSnoc(s0: State, tr: seq<Mark>, m: Mark, t: int)
    ensures On(s0, tr + [m], t) <==> m == TimerOn(t) || (m != TimerOff(t) && On(s0, tr, t))
  {
    assert (tr + [m])[..|tr|] == tr;
  }

  /** malloc does not hand out the address `c`. */
  predicate SparesAddress(script: seq<Action>, c: int) {
    forall i :: 0 <= i < |script| && (script[i].AddSock? || script[i].WatchTimer?) ==> script[i].id != c
  }

  // ---------------------------------------------------------------- one call

  lemma RemovalKnows(s: State, fd: int, res: DelResult, c: int)
    requires MapOk(s) && c in s.heap && s.heap[c].owner.SocketOwner?
    ensures var (s', ok) := RemoveSocket(s, fd, res);
            c in s'.heap ==> s'.heap[c].owner == if Forgets(s, fd, ok) && s.ctxMap[fd] == c then SocketOwner(None) else s.heap[c].owner
  {
  }

  lemma ContextRemovalKnows(s: State, fd: int, res: DelResult, c: int)
    requires MapOk(s) && c in s.heap && s.heap[c].owner.SocketOwner? && (fd in s.ctxMap ==> s.heap[s.ctxMap[fd]].owner.TimerOwner?)
    ensures var s' := RemoveTimerContext(s, fd, res).0; c in s'.heap ==> s'.heap[c].owner == s.heap[c].owner
  {
  }

  lemma DetachHeap(s: State, t: int)
    requires t in s.timers && t in s.active
    ensures Detach(s, t).heap == s.heap && Detach(s, t).closed == s.closed
  {
  }

  lemma UnwatchKnows(s: State, t: int, stopOk: bool, res: DelResult, c: int)
    requires Inv(s) && t in s.timers && c in s.heap && s.heap[c].owner.SocketOwner?
    ensures var s' := RemoveTimer(s, t, stopOk, res).0; c in s'.heap ==> s'.heap[c].owner == s.heap[c].owner
  {
    var fd := s.timers[t].tfd;
    if t in s.active && stopOk {
      assert TimerOwned(s, t);
      ContextRemovalKnows(s, fd, res, c);
      RemoveTimerContextTouches(s, fd, res);
      var (s1, removed) := RemoveTimerContext(s, fd, res);
      if removed { DetachHeap(s1, t); }
    }
  }

  /** A call changes the owner of a socket's context only by making it forget the socket, and records that. */
  lemma ApplyOwner(s: State, a: Action, c: int)
    requires Inv(s) && Legal(s, a) && c in s.heap && s.heap[c].owner.SocketOwner?
    ensures var (s', m) := Apply(s, a);
            c in s'.heap ==> s'.heap[c].owner == if Unwatched(c) in m then SocketOwner(None) else s.heap[c].owner
  {
    match a
    case ModSock(fd, mask, allocOk, ok) => ModifyKeepsOwners(s, fd, mask, allocOk, ok);
    case DelSock(fd, res) => RemovalKnows(s, fd, res, c);
    case UnwatchTimer(t, stopOk, res) => UnwatchKnows(s, t, stopOk, res, c);
    case _ =>
  }

  /** A context that is not allocated stays so unless a call is given its address. */
  lemma ApplyAbsent(s: State, a: Action, c: int)
    requires Inv(s) && Legal(s, a) && c !in s.heap && !((a.AddSock? || a.WatchTimer?) && a.id == c)
    ensures c !in Apply(s, a).0.heap
  {
    match a
    case DelSock(fd, res) => RemoveAbsent(s, fd, res, c);
    case UnwatchTimer(t, stopOk, res) => UnwatchAbsent(s, t, stopOk, res, c);
    case _ =>
  }

  lemma RemoveAbsent(s: State, fd: int, res: DelResult, c: int)
    requires MapOk(s) && c !in s.heap
    ensures c !in RemoveSocket(s, fd, res).0.heap
  {
    if fd in s.ctxMap && s.backend.Uring? { UnmapAbsent(s, fd, Forget(s.heap[s.ctxMap[fd]].owner), c); }
  }

  lemma UnmapAbsent(s: State, fd: int, owner: Owner, c: int)
    requires MapOk(s) && fd in s.ctxMap && c !in s.heap
    ensures c !in UringUnmap(s, fd, owner).heap
  {
  }

  lemma UnwatchAbsent(s: State, t: int, stopOk: bool, res: DelResult, c: int)
    requires Inv(s) && t in s.timers && c !in s.heap
    ensures c !in RemoveTimer(s, t, stopOk, res).0.heap
  {
    var fd := s.timers[t].tfd;
    if fd in s.ctxMap && s.backend.Uring? { UnmapAbsent(s, fd, s.heap[s.ctxMap[fd]].owner, c); }
    RemoveTimerContextTouches(s, fd, res);
    var (s1, removed) := RemoveTimerContext(s, fd, res);
    if t in s.active && stopOk && removed { DetachHeap(s1, t); }
  }

  lemma ApplyKnows(s0: State, s: State, a: Action, tr: seq<Mark>, c: int)
    requires Inv(s) && Legal(s, a) && Knows(s0, s, tr, c) && (c in s.heap || !((a.AddSock? || a.WatchTimer?) && a.id == c))
    ensures Knows(s0, Apply(s, a).0, tr + Apply(s, a).1, c)
  {
    if c in s.heap {
      ApplyOwner(s, a, c);
    } else {
      ApplyAbsent(s, a, c);
    }
  }

  lemma WatchRuns(s: State, id: int, u: int, ok: bool, t: int)
    requires Inv(s) && u in s.timers && id !in s.heap
    ensures var (s', added) := AddTimer(s, id, u, ok); Running(s', t) <==> (added && t == u) || Running(s, t)
  {
    AddContextTouches(s, id, TimerOwner(u), s.timers[u].tfd, 1, ok);
  }

  lemma DetachRuns(s: State, u: int, t: int)
    requires u in s.timers && u in s.active
    ensures Running(Detach(s, u), t) <==> t != u && Running(s, t)
  {
  }

  lemma UnwatchRuns(s: State, u: int, stopOk: bool, res: DelResult, t: int)
    requires Inv(s) && u in s.timers
    ensures var (s', removed) := RemoveTimer(s, u, stopOk, res); Running(s', t) <==> !(removed && t == u) && Running(s, t)
  {
    var (s1, removed) := RemoveTimerContext(s, s.timers[u].tfd, res);
    RemoveTimerContextTouches(s, s.timers[u].tfd, res);
    if u in s.active && stopOk && removed { DetachRuns(s1, u, t); }
  }

  lemma DropRuns(s: State, u: int, t: int)
    requires Inv(s) && Legal(s, DropTimer(u))
    ensures Running(Apply(s, DropTimer(u)).0, t) <==> Running(s, t)
  {
    assert TimerOwned(s, u);
  }

  /** A call starts or stops a timer only as it records. */
  lemma ApplyRuns(s: State, a: Action, t: int)
    requires Inv(s) && Legal(s, a)
    ensures var (s', m) := Apply(s, a);
            |m| <= 1 && (Running(s', t) <==> m == [TimerOn(t)] || (m != [TimerOff(t)] && Running(s, t)))
  {
    match a
    case AddSock(id, sock, fd, mask, ok) => AddContextTouches(s, id, SocketOwner(Some(sock)), fd, mask, ok);
    case ModSock(fd, mask, allocOk, ok) => ModifyKeepsOwners(s, fd, mask, allocOk, ok);
    case DelSock(fd, res) => RemoveSocketTouches(s, fd, res);
    case DropTimer(u) => DropRuns(s, u, t);
    case WatchTimer(id, u, ok) => WatchRuns(s, id, u, ok, t);
    case UnwatchTimer(u, stopOk, res) => UnwatchRuns(s, u, stopOk, res, t);
    case _ =>
  }

  lemma UnwatchClosed(s: State, u: int, stopOk: bool, res: DelResult)
    requires Inv(s) && u in s.timers
    ensures RemoveTimer(s, u, stopOk, res).0.closed == s.closed
  {
    var (s1, removed) := RemoveTimerContext(s, s.timers[u].tfd, res);
    RemoveClosed(s, s.timers[u].tfd, res);
    RemoveTimerContextTouches(s, s.timers[u].tfd, res);
    if u in s.active && stopOk && removed { DetachHeap(s1, u); }
  }

  lemma ApplyClosed(s: State, a: Action, k: int)
    requires Inv(s) && Legal(s, a)
    ensures k in Apply(s, a).0.closed <==> k in s.closed || Closed(k) in Apply(s, a).1
  {
    match a
    case ModSock(fd, mask, allocOk, ok) => ModifyClosed(s, fd, mask, allocOk, ok);
    case DelSock(fd, res) => RemoveClosed(s, fd, res);
    case UnwatchTimer(u, stopOk, res) => UnwatchClosed(s, u, stopOk, res);
    case _ =>
  }

  lemma ModifyClosed(s: State, fd: int, mask: nat, allocOk: bool, ok: bool)
    requires MapOk(s)
    ensures ModifySocket(s, fd, mask, allocOk, ok).0.closed == s.closed
  {
  }

  lemma RemoveClosed(s: State, fd: int, res: DelResult)
    requires MapOk(s)
    ensures RemoveSocket(s, fd, res).0.closed == s.closed && RemoveTimerContext(s, fd, res).0.closed == s.closed
  {
  }

  lemma ApplyTracks(s0: State, s: State, a: Action, tr: seq<Mark>)
    requires Inv(s) && Legal(s, a) && Tracks(s0, s, tr)
    ensures Tracks(s0, Apply(s, a).0, tr + Apply(s, a).1)
  {
    var (s', m) := Apply(s, a);
    forall k: int ensures Shut(s0, tr + m, k) <==> k in s'.closed { ApplyClosed(s, a, k); assert Shut(s0, tr, k) <==> k in s.closed; }
    forall t: int ensures Running(s', t) <==> On(s0, tr + m, t) {
      ApplyRuns(s, a, t);
      if m == [] {
        assert tr + m == tr;
      } else {
        assert m == [m[0]];
        OnSnoc(s0, tr, m[0], t);
      }
    }
  }

  // ---------------------------------------------------------------- a handler

  lemma {:induction false} ScriptKnows(s0: State, s: State, script: seq<Action>, tr: seq<Mark>, c: int)
    requires Inv(s) && LegalScript(s, script) && Knows(s0, s, tr, c) && (Pinned(s, c) || SparesAddress(script, c))
    ensures Knows(s0, RunScript(s, script).0, tr + RunScript(s, script).1, c)
    decreases |script|
  {
    if script == [] {
      assert tr + [] == tr;
    } else {
      var a := script[0];
      ApplyKeeps(s, a);
      ApplyKeepsPin(s, a, c);
      ApplyKnows(s0, s, a, tr, c);
      var (s1, m1) := Apply(s, a);
      ScriptKnows(s0, s1, script[1..], tr + m1, c);
      Associate(tr, m1, RunScript(s1, script[1..]).1);
    }
  }

  lemma {:induction false} ScriptTracks(s0: State, s: State, script: seq<Action>, tr: seq<Mark>)
    requires Inv(s) && LegalScript(s, script) && Tracks(s0, s, tr)
    ensures Tracks(s0, RunScript(s, script).0, tr + RunScript(s, script).1)
    decreases |script|
  {
    if script == [] {
      assert tr + [] == tr;
    } else {
      var a := script[0];
      ApplyKeeps(s, a);
      ApplyTracks(s0, s, a, tr);
      var (s1, m1) := Apply(s, a);
      ScriptTracks(s0, s1, script[1..], tr + m1);
      Associate(tr, m1, RunScript(s1, script[1..]).1);
    }
  }

  predicate IsCall(m: Mark) {
    m.ReadCall? || m.WriteCall? || m.TimerCall?
  }

  /** A callback says nothing about sockets and timers. */
  lemma CallTracks(s0: State, s: State, tr: seq<Mark>, mark: Mark)
    requires IsCall(mark) && Tracks(s0, s, tr)
    ensures Tracks(s0, s, tr + [mark])
  {
    forall t: int ensures On(s0, tr + [mark], t) <==> On(s0, tr, t) { OnSnoc(s0, tr, mark, t); }
    forall k: int ensures Shut(s0, tr + [mark], k) <==> k in s.closed { assert Shut(s0, tr, k) <==> k in s.closed; }
  }

  /** A callback with its handler: what is known of contexts and timers stays known. */
  lemma CallKnows(s0: State, s: State, tr: seq<Mark>, mark: Mark, script: seq<Action>, c: int)
    requires IsCall(mark) && Inv(s) && LegalScript(s, script) && Knows(s0, s, tr, c) && (Pinned(s, c) || SparesAddress(script, c))
    ensures var (s', m) := RunScript(s, script); Knows(s0, s', tr + ([mark] + m), c)
  {
    assert Knows(s0, s, tr + [mark], c);
    ScriptKnows(s0, s, script, tr + [mark], c);
    Associate(tr, [mark], RunScript(s, script).1);
  }

  lemma CallScriptTracks(s0: State, s: State, tr: seq<Mark>, mark: Mark, script: seq<Action>)
    requires IsCall(mark) && Inv(s) && LegalScript(s, script) && Tracks(s0, s, tr)
    ensures var (s', m) := RunScript(s, script); Tracks(s0, s', tr + ([mark] + m))
  {
    CallTracks(s0, s, tr, mark);
    ScriptTracks(s0, s, script, tr + [mark]);
    Associate(tr, [mark], RunScript(s, script).1);
  }

  // ---------------------------------------------------------------- one event

  lemma FirstTracks(s0: State, s: State, tr: seq<Mark>, e: Event, script: Script)
    requires Inv(s) && Alive(s, e) && LegalFirst(s, e, script) && Tracks(s0, s, tr)
    ensures var (s1, m1) := FirstCall(s, e, script); Tracks(s0, s1, tr + m1)
  {
    if CallsFirst(s, e) {
      CallScriptTracks(s0, s, tr, CallMark(e), script.first);
    } else {
      assert tr + [] == tr;
    }
  }

  lemma FirstKnows(s0: State, s: State, tr: seq<Mark>, e: Event, script: Script, c: int)
    requires Inv(s) && Alive(s, e) && LegalFirst(s, e, script) && Knows(s0, s, tr, c)
    requires Pinned(s, c) || SparesAddress(script.first, c)
    ensures var (s1, m1) := FirstCall(s, e, script); Knows(s0, s1, tr + m1, c)
  {
    if CallsFirst(s, e) {
      CallKnows(s0, s, tr, CallMark(e), script.first, c);
    } else {
      assert tr + [] == tr;
    }
  }

  lemma LetGoRuns(s: State, u: int, t: int)
    requires Inv(s) && u in s.held
    ensures u in s.timers && (Running(LetGo(s, u), t) <==> Running(s, t)) && LetGo(s, u).closed == s.closed
  {
    assert TimerOwned(s, u);
  }

  lemma LetGoTracks(s0: State, s: State, tr: seq<Mark>, u: int)
    requires Inv(s) && u in s.held && Tracks(s0, s, tr)
    ensures u in s.timers && Tracks(s0, LetGo(s, u), tr)
  {
    LetGoRuns(s, u, u);
    forall t: int ensures Running(LetGo(s, u), t) <==> On(s0, tr, t) { LetGoRuns(s, u, t); }
  }

  lemma SecondTracks(s0: State, s: State, tr: seq<Mark>, e: Event, script: Script)
    requires Inv(s) && Resumable(s, e) && LegalSecond(s, e, script) && Tracks(s0, s, tr)
    ensures var (s2, m2) := SecondCall(s, e, script); Tracks(s0, s2, tr + m2)
  {
    if e.TimerEvent? {
      LetGoTracks(s0, s, tr, e.timer);
      assert tr + [] == tr;
    } else if CallsSecond(s, e) {
      CallScriptTracks(s0, s, tr, WriteCall(e.ctx), script.second);
    } else {
      assert tr + [] == tr;
    }
  }

  lemma SecondKnows(s0: State, s: State, tr: seq<Mark>, e: Event, script: Script, c: int)
    requires Inv(s) && Resumable(s, e) && LegalSecond(s, e, script) && Knows(s0, s, tr, c)
    requires Pinned(s, c) || SparesAddress(script.second, c)
    ensures var (s2, m2) := SecondCall(s, e, script); Knows(s0, s2, tr + m2, c)
  {
    if e.TimerEvent? {
      LetGoKeeps(s, e.timer);
      LetGoFields(s, e.timer);
      assert tr + [] == tr;
    } else if CallsSecond(s, e) {
      CallKnows(s0, s, tr, WriteCall(e.ctx), script.second, c);
    } else {
      assert tr + [] == tr;
    }
  }

  /** The first callback is made exactly when it is due. */
  lemma FirstIsDue(s0: State, s: State, tr: seq<Mark>, e: Event, script: Script)
    requires Inv(s) && Alive(s, e) && LegalFirst(s, e, script) && Tracks(s0, s, tr)
    requires e.SocketEvent? ==> Knows(s0, s, tr, e.ctx)
    ensures FirstCall(s, e, script) == DueFirst(s0, s, tr, e, script)
  {
    match e
    case TimerEvent(t) => assert Running(s, t) <==> On(s0, tr, t);
    case SocketEvent(c, _, _, _) => CallableIsOpen(s0, s, tr, c);
  }

  lemma SecondIsDue(s0: State, s: State, tr: seq<Mark>, e: Event, script: Script)
    requires Inv(s) && Resumable(s, e) && LegalSecond(s, e, script) && Tracks(s0, s, tr) && e.SocketEvent? && Knows(s0, s, tr, e.ctx)
    ensures SecondCall(s, e, script) == Call(!e.fault && e.writable && Open(s0, tr, e.ctx), WriteCall(e.ctx), s, script.second)
  {
    if Rechecked(e) { CallableIsOpen(s0, s, tr, e.ctx); }
  }

  /** The address of `c` is kept, or at least not handed out again. */
  ghost predicate Safekept(s: State, script: Script, c: int) {
    Pinned(s, c) || (SparesAddress(script.first, c) && SparesAddress(script.second, c))
  }

  lemma OneKnows(s0: State, s: State, tr: seq<Mark>, events: seq<Event>, script: Script, c: int)
    requires Dispatchable(s, events) && events != [] && SafeEvent(s, events, script)
    requires Knows(s0, s, tr, c) && Safekept(s, script, c)
    ensures var (s2, m) := DispatchOne(s, events, script); Knows(s0, s2, tr + m, c)
    ensures Pinned(s, c) ==> Pinned(DispatchOne(s, events, script).0, c)
  {
    HeadIsAlive(s, events);
    AfterFirst(s, events, script);
    FirstKnows(s0, s, tr, events[0], script, c);
    FirstCallKeeps(s, events[0], script, c);
    var (s1, m1) := FirstCall(s, events[0], script);
    HeadResumes(s1, events);
    SecondKnows(s0, s1, tr + m1, events[0], script, c);
    SecondCallKeeps(s1, events[0], script, c);
    Associate(tr, m1, SecondCall(s1, events[0], script).1);
  }

  lemma OneTracks(s0: State, s: State, tr: seq<Mark>, events: seq<Event>, script: Script)
    requires Dispatchable(s, events) && events != [] && SafeEvent(s, events, script) && Tracks(s0, s, tr)
    ensures var (s2, m) := DispatchOne(s, events, script); Tracks(s0, s2, tr + m)
  {
    HeadIsAlive(s, events);
    AfterFirst(s, events, script);
    FirstTracks(s0, s, tr, events[0], script);
    var (s1, m1) := FirstCall(s, events[0], script);
    HeadResumes(s1, events);
    SecondTracks(s0, s1, tr + m1, events[0], script);
    Associate(tr, m1, SecondCall(s1, events[0], script).1);
  }

  lemma OneIsDue(s0: State, s: State, tr: seq<Mark>, events: seq<Event>, script: Script)
    requires Dispatchable(s, events) && events != [] && SafeEvent(s, events, script) && Tracks(s0, s, tr)
    requires events[0].SocketEvent? ==> Knows(s0, s, tr, events[0].ctx) && Safekept(s, script, events[0].ctx)
    ensures DispatchOne(s, events, script) == Due(s0, s, tr, events[0], script)
  {
    var e := events[0];
    HeadIsAlive(s, events);
    AfterFirst(s, events, script);
    FirstIsDue(s0, s, tr, e, script);
    var (s1, m1) := FirstCall(s, e, script);
    HeadResumes(s1, events);
    if e.SocketEvent? {
      FirstTracks(s0, s, tr, e, script);
      FirstKnows(s0, s, tr, e, script, e.ctx);
      SecondIsDue(s0, s1, tr + m1, e, script);
    } else {
      LetGoKeeps(s1, e.timer);
      assert m1 + [] == m1;
    }
  }

  // ---------------------------------------------------------------- the batch

  /** Each context of the batch is pinned, or no handler of the batch is given its address by malloc. */
  ghost predicate AllSafekept(s: State, events: seq<Event>, scripts: seq<Script>) {
    forall i, j :: 0 <= i < |events| && events[i].SocketEvent? && 0 <= j < |scripts| ==> Safekept(s, scripts[j], events[i].ctx)
  }

  ghost predicate AllKnown(s0: State, s: State, tr: seq<Mark>, events: seq<Event>) {
    forall i :: 0 <= i < |events| && events[i].SocketEvent? ==> Knows(s0, s, tr, events[i].ctx)
  }

  lemma RestKnown(s0: State, s: State, tr: seq<Mark>, events: seq<Event>, scripts: seq<Script>)
    requires Dispatchable(s, events) && events != [] && |scripts| == |events| && SafeEvent(s, events, scripts[0])
    requires AllKnown(s0, s, tr, events) && AllSafekept(s, events, scripts)
    ensures var (s1, m) := DispatchOne(s, events, scripts[0]);
            AllKnown(s0, s1, tr + m, events[1..]) && AllSafekept(s1, events[1..], scripts[1..])
  {
    var (s1, m) := DispatchOne(s, events, scripts[0]);
    forall i | 0 <= i < |events[1..]| && events[1..][i].SocketEvent?
      ensures Knows(s0, s1, tr + m, events[1..][i].ctx) && (Pinned(s, events[i + 1].ctx) ==> Pinned(s1, events[i + 1].ctx))
    {
      assert events[1..][i] == events[i + 1];
      assert Knows(s0, s, tr, events[i + 1].ctx) && Safekept(s, scripts[0], events[i + 1].ctx);
      OneKnows(s0, s, tr, events, scripts[0], events[i + 1].ctx);
    }
    forall i, j | 0 <= i < |events[1..]| && events[1..][i].SocketEvent? && 0 <= j < |scripts[1..]|
      ensures Safekept(s1, scripts[1..][j], events[1..][i].ctx)
    {
      assert Safekept(s, scripts[j + 1], events[i + 1].ctx);
    }
  }

  lemma {:induction false} RestIsDue(s0: State, s: State, tr: seq<Mark>, events: seq<Event>, scripts: seq<Script>)
    requires Dispatchable(s, events) && |scripts| == |events| && SafeBatch(s, events, scripts)
    requires Tracks(s0, s, tr) && AllKnown(s0, s, tr, events) && AllSafekept(s, events, scripts)
    ensures Dispatch(s, events, scripts) == ByHistory(s0, s, tr, events, scripts)
    decreases |events|
  {
    if events != [] {
      assert events[0].SocketEvent? ==> Knows(s0, s, tr, events[0].ctx) && Safekept(s, scripts[0], events[0].ctx);
      OneIsDue(s0, s, tr, events, scripts[0]);
      OneTracks(s0, s, tr, events, scripts[0]);
      RestKnown(s0, s, tr, events, scripts);
      var (s1, m1) := DispatchOne(s, events, scripts[0]);
      RestIsDue(s0, s1, tr + m1, events[1..], scripts[1..]);
    }
  }

  /**
   Over any batch that is dispatched safely, exactly the callbacks that are due by the history are made, in the
   order of the events, each with its handler, and nothing else happens.
   */
  lemma DispatchIsDue(s: State, events: seq<Event>, scripts: seq<Script>)
    requires Dispatchable(s, events) && |scripts| == |events| && SafeBatch(s, events, scripts) && AllSafekept(s, events, scripts)
    ensures Dispatch(s, events, scripts) == ByHistory(s, s, [], events, scripts)
  {
    KnownAtFirst(s, events);
    RestIsDue(s, s, [], events, scripts);
  }

  lemma KnownAtFirst(s: State, events: seq<Event>)
    requires AllLive(s, events)
    ensures Tracks(s, s, []) && AllKnown(s, s, [], events)
  {
    forall i | 0 <= i < |events| && events[i].SocketEvent? ensures Knows(s, s, [], events[i].ctx) {
      assert Live(s, events[i].ctx);
    }
  }

  /** So it is in every batch whose contexts are pinned, whatever malloc does. */
  lemma PinnedIsDue(s: State, events: seq<Event>, scripts: seq<Script>)
    requires Dispatchable(s, events) && AllPinned(s, events) && |scripts| == |events| && SafeBatch(s, events, scripts)
    ensures Dispatch(s, events, scripts) == ByHistory(s, s, [], events, scripts)
  {
    forall i, j | 0 <= i < |events| && events[i].SocketEvent? && 0 <= j < |scripts| ensures Safekept(s, scripts[j], events[i].ctx) {
      assert Pinned(s, events[i].ctx);
    }
    DispatchIsDue(s, events, scripts);
  }
}
