/** The dispatch loop of event_loop_run, for arbitrary handlers, and its trace properties. */
module EventLoopDispatch {
  import opened Common
  import opened EventLoop
  import opened EventLoopInvariant
  import opened EventLoopRun
  import opened EventLoopBatch

  // ---------------------------------------------------------------- timers retained by the batch

  function Hold(s: State, t: int): State
    requires t in s.timers
  {
    s.(timers := s.timers[t := s.timers[t].(refs := s.timers[t].refs + 1)], held := s.held + multiset{t})
  }

  function LetGo(s: State, t: int): State
    requires t in s.timers
  {
    ReleaseTimer(s.(held := s.held - multiset{t}), t)
  }

  lemma HoldKeeps(s: State, t: int)
    requires Inv(s) && t in s.timers
    ensures Inv(Hold(s, t))
  {
    ContextsFrame(s, Hold(s, t));
    assert TimerOwned(s, t);
    EntriesOfOthers(s, t);
    TimerLocally(s, Hold(s, t), t, s.timers[t].tfd);
  }

  lemma LetGoOwned(s: State, t: int)
    requires t in s.timers && TimerOwned(s, t) && t in s.held
    ensures TimerOwned(LetGo(s, t), t)
  {
  }

  lemma LetGoTouches(s: State, t: int)
    requires t in s.timers && DistinctTfds(s.timers)
    ensures OnlyTimer(s, LetGo(s, t), t, s.timers[t].tfd) && DistinctTfds(LetGo(s, t).timers)
  {
  }

  lemma LetGoFields(s: State, t: int)
    requires t in s.timers
    ensures var s' := LetGo(s, t);
            && s'.backend == s.backend && s'.heap == s.heap && s'.ctxMap == s.ctxMap && s'.rearm == s.rearm
            && s'.deferred == s.deferred && s'.kernel == s.kernel && s'.pendingTotal == s.pendingTotal
            && s'.interest == s.interest && s'.slots == s.slots
  {
  }

  lemma LetGoFrame(s: State, t: int)
    requires ContextsOk(s) && t in s.timers
    ensures ContextsOk(LetGo(s, t))
  {
    LetGoFields(s, t);
    ContextsFrame(s, LetGo(s, t));
  }

  lemma LetGoKeeps(s: State, t: int)
    requires Inv(s) && t in s.held
    ensures t in s.timers && Inv(LetGo(s, t))
  {
    assert TimerOwned(s, t);
    LetGoFrame(s, t);
    EntriesOfOthers(s, t);
    LetGoOwned(s, t);
    LetGoTouches(s, t);
    TimerLocally(s, LetGo(s, t), t, s.timers[t].tfd);
  }

  // ---------------------------------------------------------------- handlers

  /** A handler is any sequence of calls, each of them legal when it is made. */
  ghost predicate LegalScript(s: State, script: seq<Action>)
    requires Inv(s)
    decreases |script|
  {
    script == [] ||
    (Legal(s, script[0]) &&
     (ApplyKeeps(s, script[0]); LegalScript(Apply(s, script[0]).0, script[1..])))
  }

  function RunScript(s: State, script: seq<Action>): (r: (State, seq<Mark>))
    requires Inv(s) && LegalScript(s, script)
    ensures Inv(r.0)
    decreases |script|
  {
    if script == [] then (s, [])
    else
      ApplyKeeps(s, script[0]);
      var (s1, m1) := Apply(s, script[0]);
      var (s2, m2) := RunScript(s1, script[1..]);
      (s2, m1 + m2)
  }

  lemma ApplyKeepsHeld(s: State, a: Action)
    requires Inv(s) && Legal(s, a)
    ensures Apply(s, a).0.held == s.held && Apply(s, a).0.backend == s.backend
  {
    ApplyEvolves(s, a, 0);
  }

  /** `c` stays pinned from `s` to `s'`, and the batch gives up the timer references `drop`. */
  predicate Follows(s: State, s': State, c: int, drop: multiset<int>) {
    KeepsPin(s, s', c) && s'.held == s.held - drop && s'.backend == s.backend
  }

  lemma FollowsTrans(s0: State, s1: State, s2: State, c: int, d1: multiset<int>, d2: multiset<int>)
    requires Follows(s0, s1, c, d1) && Follows(s1, s2, c, d2)
    ensures Follows(s0, s2, c, d1 + d2)
  {
  }

  lemma {:induction false} ScriptKeeps(s: State, script: seq<Action>, c: int)
    requires Inv(s) && LegalScript(s, script)
    ensures Follows(s, RunScript(s, script).0, c, multiset{})
    decreases |script|
  {
    if script != [] {
      ApplyKeeps(s, script[0]);
      ApplyKeepsPin(s, script[0], c);
      ApplyKeepsHeld(s, script[0]);
      ScriptKeeps(Apply(s, script[0]).0, script[1..], c);
    }
  }

  // ---------------------------------------------------------------- dispatching one event

  /** The calls made by the first callback of an event, and by the second. */
  datatype Script = Script(first: seq<Action>, second: seq<Action>)

  predicate Callable(s: State, c: int)
    requires c in s.heap && s.heap[c].owner.SocketOwner?
  {
    s.heap[c].owner.sock.Some? && s.heap[c].owner.sock.value !in s.closed
  }

  predicate CallsFirst(s: State, e: Event)
    requires Alive(s, e)
  {
    match e
    case TimerEvent(t) => s.timers[t].attached
    case SocketEvent(c, readable, writable, fault) => Callable(s, c) && (fault || readable)
  }

  function CallMark(e: Event): Mark {
    match e
    case TimerEvent(t) => TimerCall(t)
    case SocketEvent(c, _, _, _) => ReadCall(c)
  }

  function FirstCall(s: State, e: Event, script: Script): (r: (State, seq<Mark>))
    requires Inv(s) && Alive(s, e) && (CallsFirst(s, e) ==> LegalScript(s, script.first))
    ensures Inv(r.0)
  {
    if CallsFirst(s, e) then
      var (s1, m) := RunScript(s, script.first);
      (s1, [CallMark(e)] + m)
    else (s, [])
  }

  /** The dispatcher looks at the context again after the first callback, except for a fault. */
  predicate Rechecked(e: Event) {
    e.SocketEvent? && !e.fault
  }

  predicate CallsSecond(s: State, e: Event)
    requires Rechecked(e) ==> Live(s, e.ctx)
  {
    Rechecked(e) && e.writable && Callable(s, e.ctx)
  }

  /** What the dispatcher still needs of the event after its first callback. */
  predicate Resumable(s: State, e: Event) {
    (Rechecked(e) ==> Live(s, e.ctx)) && (e.TimerEvent? ==> e.timer in s.held)
  }

  /** The writable callback, tested again after the readable one; for a timer, the batch's reference is dropped. */
  function SecondCall(s: State, e: Event, script: Script): (r: (State, seq<Mark>))
    requires Inv(s) && Resumable(s, e)
    requires CallsSecond(s, e) ==> LegalScript(s, script.second)
    ensures Inv(r.0)
  {
    if e.TimerEvent? then LetGoKeeps(s, e.timer); (LetGo(s, e.timer), [])
    else if CallsSecond(s, e) then
      var (s1, m) := RunScript(s, script.second);
      (s1, [WriteCall(e.ctx)] + m)
    else (s, [])
  }

  lemma FirstCallKeeps(s: State, e: Event, script: Script, c: int)
    requires Inv(s) && Alive(s, e) && (CallsFirst(s, e) ==> LegalScript(s, script.first))
    ensures var s' := FirstCall(s, e, script).0;
            Follows(s, s', c, multiset{})
  {
    if CallsFirst(s, e) { ScriptKeeps(s, script.first, c); }
  }

  function TimerPart(e: Event): multiset<int> {
    if e.TimerEvent? then multiset{e.timer} else multiset{}
  }

  lemma LetGoFollows(s: State, t: int, c: int)
    requires t in s.timers
    ensures Follows(s, LetGo(s, t), c, multiset{t})
  {
  }

  lemma SecondCallKeeps(s: State, e: Event, script: Script, c: int)
    requires Inv(s) && Resumable(s, e)
    requires CallsSecond(s, e) ==> LegalScript(s, script.second)
    ensures Follows(s, SecondCall(s, e, script).0, c, TimerPart(e))
  {
    if e.TimerEvent? {
      LetGoKeeps(s, e.timer);
      LetGoFollows(s, e.timer, c);
    } else if CallsSecond(s, e) {
      ScriptKeeps(s, script.second, c);
    }
  }

  // ---------------------------------------------------------------- dispatching a batch

  function TimersOf(events: seq<Event>): multiset<int> {
    if events == [] then multiset{} else TimerPart(events[0]) + TimersOf(events[1..])
  }

  predicate AllLive(s: State, events: seq<Event>) {
    forall i :: 0 <= i < |events| && events[i].SocketEvent? ==> Live(s, events[i].ctx)
  }

  predicate AllPinned(s: State, events: seq<Event>) {
    forall i :: 0 <= i < |events| && events[i].SocketEvent? ==> Pinned(s, events[i].ctx)
  }

  /** The contexts of the remaining events are allocated and their timers are retained. */
  ghost predicate Dispatchable(s: State, events: seq<Event>) {
    Inv(s) && AllLive(s, events) && TimersOf(events) <= s.held
  }

  /** The events whose contexts must be allocated after the first callback of the first event. */
  function Needed(events: seq<Event>): seq<Event>
    requires events != []
  {
    if Rechecked(events[0]) then events else events[1..]
  }

  ghost predicate Midway(s: State, events: seq<Event>)
    requires events != []
  {
    Inv(s) && AllLive(s, Needed(events)) && TimersOf(events) <= s.held
  }

  ghost predicate LegalFirst(s: State, e: Event, script: Script)
    requires Inv(s) && Alive(s, e)
  {
    CallsFirst(s, e) ==> LegalScript(s, script.first)
  }

  ghost predicate LegalSecond(s: State, e: Event, script: Script)
    requires Inv(s) && (Rechecked(e) ==> Live(s, e.ctx))
  {
    CallsSecond(s, e) ==> LegalScript(s, script.second)
  }

  lemma HeadIsAlive(s: State, events: seq<Event>)
    requires Dispatchable(s, events) && events != []
    ensures Alive(s, events[0]) && (events[0].TimerEvent? ==> events[0].timer in s.held)
  {
    if events[0].TimerEvent? {
      assert events[0].timer in TimersOf(events);
      assert TimerOwned(s, events[0].timer);
    }
  }

  lemma HeadResumes(s: State, events: seq<Event>)
    requires events != [] && Midway(s, events)
    ensures Resumable(s, events[0])
  {
    if events[0].TimerEvent? { assert events[0].timer in TimersOf(events); }
  }

  lemma AfterFirst(s: State, events: seq<Event>, script: Script)
    requires Dispatchable(s, events) && events != [] && Alive(s, events[0]) && LegalFirst(s, events[0], script)
    ensures var s1 := FirstCall(s, events[0], script).0; AllLive(s1, Needed(events)) ==> Midway(s1, events)
    ensures AllPinned(s, events) ==> AllPinned(FirstCall(s, events[0], script).0, events)
  {
    var s' := FirstCall(s, events[0], script).0;
    FirstCallKeeps(s, events[0], script, 0);
    forall i | AllPinned(s, events) && 0 <= i < |events| && events[i].SocketEvent? ensures Pinned(s', events[i].ctx) {
      FirstCallKeeps(s, events[0], script, events[i].ctx);
    }
  }

  lemma AfterSecond(s: State, events: seq<Event>, script: Script)
    requires events != [] && Midway(s, events) && Resumable(s, events[0]) && LegalSecond(s, events[0], script)
    ensures var s' := SecondCall(s, events[0], script).0; AllLive(s', events[1..]) ==> Dispatchable(s', events[1..])
    ensures AllPinned(s, events) ==> AllPinned(SecondCall(s, events[0], script).0, events[1..])
  {
    SecondCallKeeps(s, events[0], script, 0);
    TimersLeft(events, s.held, SecondCall(s, events[0], script).0.held);
    if AllPinned(s, events) { SecondPinned(s, events, script, SecondCall(s, events[0], script).0); }
  }

  lemma TimersLeft(events: seq<Event>, held: multiset<int>, held': multiset<int>)
    requires events != [] && TimersOf(events) <= held && held' == held - TimerPart(events[0])
    ensures TimersOf(events[1..]) <= held'
  {
  }

  lemma SecondPinned(s: State, events: seq<Event>, script: Script, s': State)
    requires events != [] && Midway(s, events) && Resumable(s, events[0]) && LegalSecond(s, events[0], script)
    requires AllPinned(s, events) && s' == SecondCall(s, events[0], script).0
    ensures AllPinned(s', events[1..])
  {
    forall i | 0 <= i < |events[1..]| && events[1..][i].SocketEvent? ensures Pinned(s', events[1..][i].ctx) {
      assert events[1..][i] == events[i + 1];
      SecondCallKeeps(s, events[0], script, events[i + 1].ctx);
    }
  }

  /** The handlers of the first event only make legal calls; what they may do to freed memory is not asked. */
  ghost predicate LegalEvent(s: State, events: seq<Event>, script: Script)
    requires Dispatchable(s, events) && events != []
  {
    HeadIsAlive(s, events);
    LegalFirst(s, events[0], script) &&
    var s1 := FirstCall(s, events[0], script).0;
    AllLive(s1, Needed(events)) ==> (AfterFirst(s, events, script); HeadResumes(s1, events); LegalSecond(s1, events[0], script))
  }

  /** And they free no context that the dispatcher will look at again. */
  ghost predicate SafeEvent(s: State, events: seq<Event>, script: Script)
    requires Dispatchable(s, events) && events != []
  {
    HeadIsAlive(s, events);
    LegalFirst(s, events[0], script) &&
    var s1 := FirstCall(s, events[0], script).0;
    AllLive(s1, Needed(events)) &&
    (AfterFirst(s, events, script);
     HeadResumes(s1, events);
     LegalSecond(s1, events[0], script) && AllLive(SecondCall(s1, events[0], script).0, events[1..]))
  }

  function DispatchOne(s: State, events: seq<Event>, script: Script): (r: (State, seq<Mark>))
    requires Dispatchable(s, events) && events != [] && SafeEvent(s, events, script)
    ensures Dispatchable(r.0, events[1..])
  {
    HeadIsAlive(s, events);
    AfterFirst(s, events, script);
    var (s1, m1) := FirstCall(s, events[0], script);
    HeadResumes(s1, events);
    AfterSecond(s1, events, script);
    var (s2, m2) := SecondCall(s1, events[0], script);
    (s2, m1 + m2)
  }

  lemma DispatchOneKeeps(s: State, events: seq<Event>, script: Script, c: int)
    requires Dispatchable(s, events) && events != [] && SafeEvent(s, events, script)
    ensures Follows(s, DispatchOne(s, events, script).0, c, TimerPart(events[0]))
  {
    HeadIsAlive(s, events);
    AfterFirst(s, events, script);
    FirstCallKeeps(s, events[0], script, c);
    var s1 := FirstCall(s, events[0], script).0;
    HeadResumes(s1, events);
    SecondCallKeeps(s1, events[0], script, c);
    FollowsTrans(s, s1, SecondCall(s1, events[0], script).0, c, multiset{}, TimerPart(events[0]));
    assert multiset{} + TimerPart(events[0]) == TimerPart(events[0]);
  }

  ghost predicate LegalBatch(s: State, events: seq<Event>, scripts: seq<Script>)
    requires Dispatchable(s, events) && |scripts| == |events|
    decreases |events|
  {
    events == [] ||
    (LegalEvent(s, events, scripts[0]) &&
     (SafeEvent(s, events, scripts[0]) ==> LegalBatch(DispatchOne(s, events, scripts[0]).0, events[1..], scripts[1..])))
  }

  ghost predicate SafeBatch(s: State, events: seq<Event>, scripts: seq<Script>)
    requires Dispatchable(s, events) && |scripts| == |events|
    decreases |events|
  {
    events == [] ||
    (SafeEvent(s, events, scripts[0]) && SafeBatch(DispatchOne(s, events, scripts[0]).0, events[1..], scripts[1..]))
  }

  lemma PinnedEvent(s: State, events: seq<Event>, script: Script)
    requires Dispatchable(s, events) && events != [] && AllPinned(s, events) && LegalEvent(s, events, script)
    ensures SafeEvent(s, events, script) && AllPinned(DispatchOne(s, events, script).0, events[1..])
  {
    HeadIsAlive(s, events);
    AfterFirst(s, events, script);
    var s1 := FirstCall(s, events[0], script).0;
    HeadResumes(s1, events);
    AfterSecond(s1, events, script);
  }

  /** Where every context of the batch is pinned, handlers that make legal calls are safe. */
  lemma {:induction false} PinnedIsSafe(s: State, events: seq<Event>, scripts: seq<Script>)
    requires Dispatchable(s, events) && |scripts| == |events| && AllPinned(s, events) && LegalBatch(s, events, scripts)
    ensures SafeBatch(s, events, scripts)
    decreases |events|
  {
    if events != [] {
      PinnedEvent(s, events, scripts[0]);
      PinnedIsSafe(DispatchOne(s, events, scripts[0]).0, events[1..], scripts[1..]);
    }
  }

  /** The dispatch loop: each event is tested against the state its predecessors' handlers left. */
  function Dispatch(s: State, events: seq<Event>, scripts: seq<Script>): (r: (State, seq<Mark>))
    requires Dispatchable(s, events) && |scripts| == |events| && SafeBatch(s, events, scripts)
    ensures Inv(r.0)
    decreases |events|
  {
    if events == [] then (s, [])
    else
      var (s1, m1) := DispatchOne(s, events, scripts[0]);
      var (s2, m2) := Dispatch(s1, events[1..], scripts[1..]);
      (s2, m1 + m2)
  }

  /** What was pinned stays pinned until the batch ends, and the retains on timers balance. */
  lemma {:induction false} DispatchKeeps(s: State, events: seq<Event>, scripts: seq<Script>, c: int)
    requires Dispatchable(s, events) && |scripts| == |events| && SafeBatch(s, events, scripts)
    ensures Follows(s, Dispatch(s, events, scripts).0, c, TimersOf(events))
    decreases |events|
  {
    if events != [] {
      var s1 := DispatchOne(s, events, scripts[0]).0;
      DispatchOneKeeps(s, events, scripts[0], c);
      DispatchKeeps(s1, events[1..], scripts[1..], c);
      FollowsTrans(s, s1, Dispatch(s1, events[1..], scripts[1..]).0, c, TimerPart(events[0]), TimersOf(events[1..]));
    }
  }

  // ---------------------------------------------------------------- what all calls keep, a batch keeps

  /** `p` survives every legal call that is `fair`, and the batch's hold on timers does not matter to it. */
  ghost predicate Steady(p: State -> bool, fair: Action -> bool) {
    && (forall s: State, a: Action :: Inv(s) && Legal(s, a) && fair(a) && p(s) ==> p(Apply(s, a).0))
    && (forall s: State, t: int :: t in s.timers && p(s) ==> p(Hold(s, t)) && p(LetGo(s, t)))
  }

  predicate AllFair(script: seq<Action>, fair: Action -> bool) {
    forall i :: 0 <= i < |script| ==> fair(script[i])
  }

  predicate FairScripts(scripts: seq<Script>, fair: Action -> bool) {
    forall i :: 0 <= i < |scripts| ==> AllFair(scripts[i].first, fair) && AllFair(scripts[i].second, fair)
  }

  lemma {:induction false} ScriptSteady(p: State -> bool, fair: Action -> bool, s: State, script: seq<Action>)
    requires Steady(p, fair) && Inv(s) && LegalScript(s, script) && AllFair(script, fair) && p(s)
    ensures p(RunScript(s, script).0)
    decreases |script|
  {
    if script != [] {
      ApplyKeeps(s, script[0]);
      assert Legal(s, script[0]) && fair(script[0]);
      ScriptSteady(p, fair, Apply(s, script[0]).0, script[1..]);
    }
  }

  lemma FirstSteady(p: State -> bool, fair: Action -> bool, s: State, e: Event, script: Script)
    requires Steady(p, fair) && Inv(s) && Alive(s, e) && LegalFirst(s, e, script) && AllFair(script.first, fair) && p(s)
    ensures p(FirstCall(s, e, script).0)
  {
    if CallsFirst(s, e) { ScriptSteady(p, fair, s, script.first); }
  }

  lemma SecondSteady(p: State -> bool, fair: Action -> bool, s: State, e: Event, script: Script)
    requires Steady(p, fair) && Inv(s) && Resumable(s, e)
    requires LegalSecond(s, e, script) && AllFair(script.second, fair) && p(s)
    ensures p(SecondCall(s, e, script).0)
  {
    if e.TimerEvent? {
      LetGoKeeps(s, e.timer);
    } else if CallsSecond(s, e) {
      ScriptSteady(p, fair, s, script.second);
    }
  }

  lemma DispatchOneSteady(p: State -> bool, fair: Action -> bool, s: State, events: seq<Event>, script: Script)
    requires Dispatchable(s, events) && events != [] && SafeEvent(s, events, script)
    requires Steady(p, fair) && AllFair(script.first, fair) && AllFair(script.second, fair) && p(s)
    ensures p(DispatchOne(s, events, script).0)
  {
    HeadIsAlive(s, events);
    AfterFirst(s, events, script);
    FirstSteady(p, fair, s, events[0], script);
    var s1 := FirstCall(s, events[0], script).0;
    HeadResumes(s1, events);
    SecondSteady(p, fair, s1, events[0], script);
  }

  lemma {:induction false} DispatchSteady(p: State -> bool, fair: Action -> bool, s: State, events: seq<Event>, scripts: seq<Script>)
    requires Dispatchable(s, events) && |scripts| == |events| && SafeBatch(s, events, scripts)
    requires Steady(p, fair) && FairScripts(scripts, fair) && p(s)
    ensures p(Dispatch(s, events, scripts).0)
    decreases |events|
  {
    if events != [] {
      DispatchOneSteady(p, fair, s, events, scripts[0]);
      assert FairScripts(scripts[1..], fair);
      DispatchSteady(p, fair, DispatchOne(s, events, scripts[0]).0, events[1..], scripts[1..]);
    }
  }
}
