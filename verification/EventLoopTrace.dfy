/** No callback runs for a socket or a timer that was removed earlier in the same batch. */
module EventLoopTrace {
  import opened Common
  import opened EventLoop
  import opened EventLoopInvariant
  import opened EventLoopRun
  import opened EventLoopBatch
  import opened EventLoopDispatch

  /** The last thing the trace says about `t` is that it was removed. */
  predicate LastOff(tr: seq<Mark>, t: int) {
    if tr == [] then false
    else
      var m := tr[|tr| - 1];
      m == TimerOff(t) || (m != TimerOn(t) && LastOff(tr[..|tr| - 1], t))
  }

  /** The callback recorded at position `j`, if any, is for something that was not removed before. */
  predicate CallOk(tr: seq<Mark>, j: nat)
    requires j < |tr|
  {
    match tr[j]
    case ReadCall(c) => Unwatched(c) !in tr[..j]
    case WriteCall(c) => Unwatched(c) !in tr[..j]
    case TimerCall(t) => !LastOff(tr[..j], t)
    case _ => true
  }

  predicate SafeTrace(tr: seq<Mark>) {
    forall j :: 0 <= j < |tr| ==> CallOk(tr, j)
  }

  /** The state agrees with what the trace says was removed; `batch` are the contexts of the batch. */
  ghost predicate Agrees(s: State, tr: seq<Mark>, batch: set<int>) {
    && (forall c :: c in batch ==> Pinned(s, c))
    && (forall c :: c in batch && Unwatched(c) in tr ==> c in s.heap && s.heap[c].owner == SocketOwner(None))
    && (forall t: int :: LastOff(tr, t) ==> Idle(s, t))
  }

  predicate Idle(s: State, t: int) {
    t in s.timers ==> !s.timers[t].attached
  }

  ghost predicate Sound(s: State, tr: seq<Mark>, batch: set<int>) {
    Agrees(s, tr, batch) && SafeTrace(tr)
  }

  lemma Regroup(s: State, tr: seq<Mark>, m1: seq<Mark>, m2: seq<Mark>, batch: set<int>)
    requires Sound(s, tr + m1 + m2, batch)
    ensures Sound(s, tr + (m1 + m2), batch)
  {
    assert tr + m1 + m2 == tr + (m1 + m2);
  }

  lemma AppendOne(tr: seq<Mark>, m: Mark)
    ensures forall t: int :: LastOff(tr + [m], t) <==> m == TimerOff(t) || (m != TimerOn(t) && LastOff(tr, t))
    ensures forall x :: x in tr + [m] <==> x in tr || x == m
  {
    assert (tr + [m])[..|tr|] == tr;
  }

  lemma SafeAppend(tr: seq<Mark>, m: Mark)
    requires SafeTrace(tr)
    requires m.ReadCall? || m.WriteCall? ==> Unwatched(m.ctx) !in tr
    requires m.TimerCall? ==> !LastOff(tr, m.timer)
    ensures SafeTrace(tr + [m])
  {
    var tr' := tr + [m];
    assert tr'[..|tr|] == tr;
    forall j | 0 <= j < |tr'| ensures CallOk(tr', j) {
      if j < |tr| { assert CallOk(tr, j) && tr'[..j] == tr[..j]; }
    }
  }

  // ---------------------------------------------------------------- one call

  predicate Recorded(s: State, s': State, m: seq<Mark>, t: int) {
    && |m| <= 1
    && (m == [TimerOff(t)] ==> Idle(s', t))
    && (Idle(s, t) && m != [TimerOn(t)] ==> Idle(s', t))
    && (m == [] || m[0].TimerOff? || m[0].TimerOn? || m[0].Unwatched? || m[0].Closed?)
  }

  lemma WatchRecorded(s: State, a: Action, t: int)
    requires Inv(s) && Legal(s, a) && a.WatchTimer?
    ensures Recorded(s, Apply(s, a).0, Apply(s, a).1, t)
  {
    AddContextTouches(s, a.id, TimerOwner(a.timer), s.timers[a.timer].tfd, 1, a.ok);
  }

  lemma DetachIdles(s: State, t: int, u: int)
    requires t in s.timers && t in s.active
    ensures Idle(Detach(s, t), t) && (Idle(s, u) ==> Idle(Detach(s, t), u))
  {
  }

  lemma UnwatchRecorded(s: State, a: Action, t: int)
    requires Inv(s) && Legal(s, a) && a.UnwatchTimer?
    ensures Recorded(s, Apply(s, a).0, Apply(s, a).1, t)
  {
    var fd := s.timers[a.timer].tfd;
    RemoveTimerContextTouches(s, fd, a.res);
    if Apply(s, a).1 != [] { DetachIdles(RemoveTimerContext(s, fd, a.res).0, a.timer, t); }
  }

  /** A timer becomes attached only by a call that the trace records. */
  lemma CallsRecorded(s: State, a: Action, t: int)
    requires Inv(s) && Legal(s, a)
    ensures Recorded(s, Apply(s, a).0, Apply(s, a).1, t)
  {
    match a {
      case AddSock(id, sock, fd, mask, ok) => AddContextTouches(s, id, SocketOwner(Some(sock)), fd, mask, ok);
      case ModSock(fd, mask, allocOk, ok) => ModifyTouches(s, fd, mask, allocOk, ok);
      case DelSock(fd, res) => RemoveSocketTouches(s, fd, res);
      case WatchTimer(_, _, _) => WatchRecorded(s, a, t);
      case UnwatchTimer(_, _, _) => UnwatchRecorded(s, a, t);
      case _ =>
    }
  }

  /** A removal that is recorded leaves the context without a socket. */
  lemma RemovalForgets(s: State, a: Action)
    requires Inv(s) && Legal(s, a) && Apply(s, a).1 != [] && Apply(s, a).1[0].Unwatched?
    ensures var (s', m) := Apply(s, a);
            Pinned(s, m[0].ctx) ==> m[0].ctx in s'.heap && s'.heap[m[0].ctx].owner == SocketOwner(None)
  {
    var c := Apply(s, a).1[0].ctx;
    ApplyKeepsPin(s, a, c);
    RemoveSetsOwner(s, a.fd, a.res);
  }

  lemma RemoveSetsOwner(s: State, fd: int, res: DelResult)
    requires MapOk(s) && Forgets(s, fd, RemoveSocket(s, fd, res).1)
    ensures var s', c := RemoveSocket(s, fd, res).0, s.ctxMap[fd];
            c in s'.heap ==> s'.heap[c].owner == Forget(s.heap[c].owner)
  {
  }

  lemma ApplyAgrees(s: State, a: Action, tr: seq<Mark>, batch: set<int>)
    requires Inv(s) && Legal(s, a) && Sound(s, tr, batch)
    ensures var (s', m) := Apply(s, a); Sound(s', tr + m, batch)
  {
    var (s', m) := Apply(s, a);
    CallsRecorded(s, a, 0);
    forall c | c in batch ensures Pinned(s', c) { ApplyKeepsPin(s, a, c); }
    if m == [] {
      assert tr + m == tr;
      forall c | c in batch && Unwatched(c) in tr ensures s'.heap[c].owner == SocketOwner(None) { ApplyKeepsPin(s, a, c); }
      forall t: int | LastOff(tr, t) ensures Idle(s', t) { CallsRecorded(s, a, t); }
    } else {
      assert m == [m[0]];
      AppendOne(tr, m[0]);
      SafeAppend(tr, m[0]);
      forall c | c in batch && Unwatched(c) in tr + m ensures s'.heap[c].owner == SocketOwner(None) {
        ApplyKeepsPin(s, a, c);
        if m[0] == Unwatched(c) { RemovalForgets(s, a); }
      }
      forall t: int | LastOff(tr + m, t) ensures Idle(s', t) { CallsRecorded(s, a, t); }
    }
  }

  // ---------------------------------------------------------------- handlers and events

  lemma {:induction false} ScriptAgrees(s: State, script: seq<Action>, tr: seq<Mark>, batch: set<int>)
    requires Inv(s) && LegalScript(s, script) && Sound(s, tr, batch)
    ensures var (s', m) := RunScript(s, script); Sound(s', tr + m, batch)
    decreases |script|
  {
    if script == [] {
      assert tr + [] == tr;
    } else {
      ApplyKeeps(s, script[0]);
      ApplyAgrees(s, script[0], tr, batch);
      var (s1, m1) := Apply(s, script[0]);
      ScriptAgrees(s1, script[1..], tr + m1, batch);
      var (s2, m2) := RunScript(s1, script[1..]);
      Regroup(s2, tr, m1, m2, batch);
    }
  }

  /** A callback may be recorded when its test succeeded. */
  lemma CallAgrees(s: State, m: Mark, tr: seq<Mark>, batch: set<int>)
    requires Sound(s, tr, batch)
    requires match m
             case ReadCall(c) => c in batch && s.heap[c].owner != SocketOwner(None)
             case WriteCall(c) => c in batch && s.heap[c].owner != SocketOwner(None)
             case TimerCall(t) => !Idle(s, t)
             case _ => false
    ensures Sound(s, tr + [m], batch)
  {
    AppendOne(tr, m);
    SafeAppend(tr, m);
  }

  lemma CallScriptAgrees(s: State, m: Mark, script: seq<Action>, tr: seq<Mark>, batch: set<int>)
    requires Inv(s) && LegalScript(s, script) && Sound(s, tr, batch)
    requires match m
             case ReadCall(c) => c in batch && s.heap[c].owner != SocketOwner(None)
             case WriteCall(c) => c in batch && s.heap[c].owner != SocketOwner(None)
             case TimerCall(t) => !Idle(s, t)
             case _ => false
    ensures var (s', ms) := RunScript(s, script); Sound(s', tr + ([m] + ms), batch)
  {
    CallAgrees(s, m, tr, batch);
    ScriptAgrees(s, script, tr + [m], batch);
    var (s', ms) := RunScript(s, script);
    Regroup(s', tr, [m], ms, batch);
  }

  lemma FirstAgrees(s: State, e: Event, script: Script, tr: seq<Mark>, batch: set<int>)
    requires Inv(s) && Alive(s, e) && LegalFirst(s, e, script) && Sound(s, tr, batch)
    requires e.SocketEvent? ==> e.ctx in batch
    ensures var (s', m) := FirstCall(s, e, script); Sound(s', tr + m, batch)
  {
    if CallsFirst(s, e) {
      CallScriptAgrees(s, CallMark(e), script.first, tr, batch);
    } else {
      assert tr + [] == tr;
    }
  }

  lemma LetGoAgrees(s: State, t: int, tr: seq<Mark>, batch: set<int>)
    requires t in s.timers && Agrees(s, tr, batch)
    ensures Agrees(LetGo(s, t), tr, batch)
  {
    forall u: int | LastOff(tr, u) ensures Idle(LetGo(s, t), u) { assert Idle(s, u); }
  }

  lemma SecondAgrees(s: State, e: Event, script: Script, tr: seq<Mark>, batch: set<int>)
    requires Inv(s) && Resumable(s, e)
    requires LegalSecond(s, e, script) && Sound(s, tr, batch)
    requires e.SocketEvent? ==> e.ctx in batch
    ensures var (s', m) := SecondCall(s, e, script); Sound(s', tr + m, batch)
  {
    assert tr + [] == tr;
    if e.TimerEvent? {
      LetGoKeeps(s, e.timer);
      LetGoAgrees(s, e.timer, tr, batch);
    } else if CallsSecond(s, e) {
      CallScriptAgrees(s, WriteCall(e.ctx), script.second, tr, batch);
    }
  }

  predicate InBatch(events: seq<Event>, batch: set<int>) {
    forall i :: 0 <= i < |events| && events[i].SocketEvent? ==> events[i].ctx in batch
  }

  lemma RestInBatch(events: seq<Event>, batch: set<int>)
    requires InBatch(events, batch) && events != []
    ensures InBatch(events[1..], batch)
  {
  }

  lemma DispatchOneAgrees(s: State, events: seq<Event>, script: Script, tr: seq<Mark>, batch: set<int>)
    requires Dispatchable(s, events) && events != [] && SafeEvent(s, events, script)
    requires InBatch(events, batch) && Sound(s, tr, batch)
    ensures var (s', m) := DispatchOne(s, events, script); Sound(s', tr + m, batch)
  {
    HeadIsAlive(s, events);
    AfterFirst(s, events, script);
    FirstAgrees(s, events[0], script, tr, batch);
    var (s1, m1) := FirstCall(s, events[0], script);
    HeadResumes(s1, events);
    SecondAgrees(s1, events[0], script, tr + m1, batch);
    var (s2, m2) := SecondCall(s1, events[0], script);
    Regroup(s2, tr, m1, m2, batch);
  }

  lemma {:induction false} DispatchAgrees(s: State, events: seq<Event>, scripts: seq<Script>, tr: seq<Mark>, batch: set<int>)
    requires Dispatchable(s, events) && |scripts| == |events| && SafeBatch(s, events, scripts)
    requires InBatch(events, batch) && Sound(s, tr, batch)
    ensures var (s', m) := Dispatch(s, events, scripts); Sound(s', tr + m, batch)
    decreases |events|
  {
    if events == [] {
      assert tr + [] == tr;
    } else {
      DispatchOneAgrees(s, events, scripts[0], tr, batch);
      RestInBatch(events, batch);
      var (s1, m1) := DispatchOne(s, events, scripts[0]);
      DispatchAgrees(s1, events[1..], scripts[1..], tr + m1, batch);
      var (s2, m2) := Dispatch(s1, events[1..], scripts[1..]);
      Regroup(s2, tr, m1, m2, batch);
    }
  }
}
