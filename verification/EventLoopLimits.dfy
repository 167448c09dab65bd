/** Runs from a new loop that reach the limits of its guarantees. */
module EventLoopLimits {
  import opened Common
  import opened EventLoop
  import opened EventLoopInvariant
  import opened EventLoopRun
  import opened EventLoopBatch
  import opened EventLoopDispatch
  import opened EventLoopSafety
  import opened EventLoopWatch

  // ---------------------------------------------------------------- running step by step

  lemma RunMore(s: State, step: Step, rest: seq<Step>)
    requires Rest(s) && LegalStep(s, step) && Rest(Take(s, step)) && LegalRun(Take(s, step), rest)
    ensures LegalRun(s, [step] + rest) && Run(s, [step] + rest) == Run(Take(s, step), rest)
  {
    assert ([step] + rest)[1..] == rest;
  }

  lemma RunLast(s: State, step: Step)
    requires Rest(s) && LegalStep(s, step)
    ensures LegalRun(s, [step]) && Run(s, [step]) == Take(s, step) && Rest(Take(s, step))
  {
    StepKeeps(s, step);
    RunMore(s, step, []);
    assert [step] + [] == [step];
  }

  lemma TwoSteps(s0: State, s1: State, a: Step, b: Step)
    requires Rest(s0) && LegalStep(s0, a) && Take(s0, a) == s1 && Rest(s1) && LegalStep(s1, b)
    ensures LegalRun(s0, [a, b]) && Run(s0, [a, b]) == Take(s1, b)
  {
    RunLast(s1, b);
    RunMore(s0, a, [b]);
    assert [a] + [b] == [a, b];
  }

  lemma ThreeSteps(s0: State, s1: State, s2: State, a: Step, b: Step, c: Step)
    requires Rest(s0) && LegalStep(s0, a) && Take(s0, a) == s1 && Rest(s1) && LegalStep(s1, b)
    requires Take(s1, b) == s2 && Rest(s2) && LegalStep(s2, c)
    ensures LegalRun(s0, [a, b, c]) && Run(s0, [a, b, c]) == Take(s2, c)
  {
    TwoSteps(s1, s2, b, c);
    RunMore(s0, a, [b, c]);
    assert [a] + [b, c] == [a, b, c];
  }

  /** A call that leads from one named state to another. */
  lemma CallStep(s: State, a: Action, s': State)
    requires Rest(s) && Legal(s, a) && Apply(s, a).0 == s'
    ensures LegalStep(s, Call(a)) && Take(s, Call(a)) == s' && Rest(s')
  {
    StepKeeps(s, Call(a));
  }

  /** A wait with nothing to drain whose completions lead to `h`. */
  lemma WaitStep(s: State, cqes: seq<Cqe>, h: Harvest)
    requires Inv(s) && s.backend.Uring? && s.rearm == [] && OpsOf(cqes) <= s.kernel && Completions(s, cqes, []) == h
    ensures var w := UringAnswers(true, [], cqes, true);
            Answerable(s, w) && Wait(s, w) == (h.state, h.events, !h.oom)
  {
    assert Drain(s, []) == s;
  }

  /** The completion `q` leads from `s` to `s'` and reports `e`. */
  predicate Leads(s: State, q: Cqe, s': State, e: seq<Event>) {
    q.op.ctx in s.heap && s' == Complete(s, q) && !NoRoom(s, q) && e == Reported(s.heap[q.op.ctx], q)
  }

  /** One completion, and then the rest. */
  lemma TakeOne(s: State, q: Cqe, rest: seq<Cqe>, events: seq<Event>, s': State, e: seq<Event>)
    requires Inv(s) && s.backend.Uring? && OpsOf([q] + rest) <= s.kernel && |events| < MAX_EVENTS && Leads(s, q, s', e)
    ensures Inv(s') && s'.backend.Uring? && OpsOf(rest) <= s'.kernel
    ensures Completions(s, [q] + rest, events) == Completions(s', rest, events + e)
  {
    assert ([q] + rest)[1..] == rest;
    CompletionTurn(s, [q] + rest, events, s', events + e);
  }

  lemma TakeLast(s: State, q: Cqe, events: seq<Event>, s': State, e: seq<Event>)
    requires Inv(s) && s.backend.Uring? && OpsOf([q]) <= s.kernel && |events| < MAX_EVENTS && Leads(s, q, s', e)
    ensures Completions(s, [q], events) == Harvest(s', events + e, false)
  {
    assert [q] + [] == [q];
    TakeOne(s, q, [], events, s', e);
  }

  lemma TakeTwo(s: State, a: Cqe, b: Cqe, events: seq<Event>, s1: State, s2: State, e1: seq<Event>, e2: seq<Event>)
    requires Inv(s) && s.backend.Uring? && OpsOf([a, b]) <= s.kernel && |events| + 1 < MAX_EVENTS
    requires Leads(s, a, s1, e1) && Leads(s1, b, s2, e2)
    ensures Completions(s, [a, b], events) == Harvest(s2, events + e1 + e2, false)
  {
    assert [a] + [b] == [a, b];
    TakeOne(s, a, [b], events, s1, e1);
    TakeLast(s1, b, events + e1, s2, e2);
  }

  /** A wait that takes the two completions that are there. */
  lemma WaitTwo(s: State, a: Cqe, b: Cqe, s1: State, s2: State, e1: seq<Event>, e2: seq<Event>)
    requires Inv(s) && s.backend.Uring? && s.rearm == [] && OpsOf([a, b]) <= s.kernel
    requires Leads(s, a, s1, e1) && Leads(s1, b, s2, e2)
    ensures var w := UringAnswers(true, [], [a, b], true); Answerable(s, w) && Wait(s, w) == (s2, e1 + e2, true)
  {
    TakeTwo(s, a, b, [], s1, s2, e1, e2);
    assert [] + e1 + e2 == e1 + e2;
    WaitStep(s, [a, b], Harvest(s2, e1 + e2, false));
  }

  lemma WaitThree(s: State, a: Cqe, b: Cqe, c: Cqe, s1: State, s2: State, s3: State, e1: seq<Event>, e2: seq<Event>, e3: seq<Event>)
    requires Inv(s) && s.backend.Uring? && s.rearm == [] && OpsOf([a, b, c]) <= s.kernel
    requires Leads(s, a, s1, e1) && Leads(s1, b, s2, e2) && Leads(s2, c, s3, e3)
    ensures var w := UringAnswers(true, [], [a, b, c], true); Answerable(s, w) && Wait(s, w) == (s3, e1 + e2 + e3, true)
  {
    assert [a] + [b, c] == [a, b, c] && [] + e1 == e1;
    TakeOne(s, a, [b, c], [], s1, e1);
    TakeTwo(s1, b, c, e1, s2, s3, e2, e3);
    WaitStep(s, [a, b, c], Harvest(s3, e1 + e2 + e3, false));
  }

  function Readable(c: int): Cqe {
    Cqe(Op(PollAdd, c), false, false, true, false, false, true)
  }

  function Updated(c: int): Cqe {
    Cqe(Op(PollUpdate, c), false, false, false, false, false, true)
  }

  function ReadEvent(c: int): Event {
    SocketEvent(c, true, false, false)
  }

  /** A socket context as these runs have them. */
  function Sock(refs: int, sock: int, fd: int, mask: nat, armed: bool, queued: bool, pending: int): Context {
    Context(refs, SocketOwner(Some(sock)), fd, mask, false, armed, queued, pending)
  }

  function Ring(heap: map<int, Context>, ctxMap: map<int, int>, rearm: seq<int>, kernel: multiset<Op>, n: int): State {
    State(Uring, heap, ctxMap, rearm, 64, [], kernel, n, map[], map[], [], multiset{}, {})
  }

  // ---------------------------------------------------------------- io_uring: an empty mask

  /** Socket 7 on descriptor 5 is added and its mask set to 0. */
  function Muting(): seq<Step> {
    [Call(AddSock(1, 7, 5, 1, true)), Call(ModSock(5, 0, true, true))]
  }

  /** Then the poll completes, readable, and the update is acknowledged, both in one wait. */
  function Stirred(): seq<Cqe> {
    [Readable(1), Updated(1)]
  }

  function Armed(): State {
    Ring(map[1 := Sock(2, 7, 5, 1, true, false, 1)], map[5 := 1], [], multiset{Op(PollAdd, 1)}, 1)
  }

  function Muted(): State {
    Ring(map[1 := Sock(3, 7, 5, 0, true, false, 2)], map[5 := 1], [], multiset{Op(PollAdd, 1), Op(PollUpdate, 1)}, 2)
  }

  function HalfBare(): State {
    Ring(map[1 := Sock(2, 7, 5, 0, false, false, 1)], map[5 := 1], [], multiset{Op(PollUpdate, 1)}, 1)
  }

  function Bare(): State {
    Ring(map[1 := Sock(1, 7, 5, 0, false, false, 0)], map[5 := 1], [], multiset{}, 0)
  }

  lemma MutedRun()
    ensures Rest(Initial(Uring)) && LegalRun(Initial(Uring), Muting()) && Run(Initial(Uring), Muting()) == Muted() && Rest(Muted())
  {
    InitialIsAtRest(Uring);
    CallStep(Initial(Uring), AddSock(1, 7, 5, 1, true), Armed());
    MutedState();
    CallStep(Armed(), ModSock(5, 0, true, true), Muted());
    TwoSteps(Initial(Uring), Armed(), Muting()[0], Muting()[1]);
  }

  lemma MutedState()
    ensures var a := ModSock(5, 0, true, true); MapOk(Armed()) && Legal(Armed(), a) && Apply(Armed(), a).0 == Muted()
  {
  }

  lemma StirredOps()
    ensures OpsOf(Stirred()) == multiset{Op(PollAdd, 1), Op(PollUpdate, 1)}
  {
    assert Stirred()[1..] == [Updated(1)] && [Updated(1)][1..] == [];
  }

  lemma FirstStirred()
    ensures Leads(Muted(), Readable(1), HalfBare(), [ReadEvent(1)])
  {
    assert multiset{Op(PollAdd, 1), Op(PollUpdate, 1)} - multiset{Op(PollAdd, 1)} == multiset{Op(PollUpdate, 1)};
  }

  lemma SecondStirred()
    ensures Leads(HalfBare(), Updated(1), Bare(), [])
  {
    assert multiset{Op(PollUpdate, 1)} - multiset{Op(PollUpdate, 1)} == multiset{};
  }

  lemma StirredWait()
    requires Inv(Muted())
    ensures var w := UringAnswers(true, [], Stirred(), true);
            Answerable(Muted(), w) && Wait(Muted(), w) == (Bare(), [ReadEvent(1)], true)
  {
    StirredOps();
    FirstStirred();
    SecondStirred();
    WaitTwo(Muted(), Readable(1), Updated(1), HalfBare(), Bare(), [ReadEvent(1)], []);
    assert [ReadEvent(1)] + [] == [ReadEvent(1)];
  }

  /** A handler that removes descriptor `fd`. */
  function Removing(fd: int): Script {
    Script([DelSock(fd, Deleted)], [])
  }

  lemma RemovingScript(s: State, fd: int)
    requires Inv(s) && NotATimerFd(s, fd)
    ensures LegalScript(s, Removing(fd).first) && RunScript(s, Removing(fd).first).0 == RemoveSocket(s, fd, Deleted).0
  {
    var a := DelSock(fd, Deleted);
    ApplyKeeps(s, a);
    assert Removing(fd).first == [a] && [a][1..] == [];
  }

  /** Nothing is retained for a batch of socket events. */
  lemma SocketBatch(s: State, events: seq<Event>)
    requires Inv(s) && AllAlive(s, events) && forall i :: 0 <= i < |events| ==> events[i].SocketEvent?
    ensures BeginBatch(s, events) == s
    decreases |events|
  {
    if events != [] { SocketBatch(s, events[1..]); }
  }

  /** The first handler of the batch, legally called, frees context `c`, which the dispatcher will look at again. */
  ghost predicate FreesUnderDispatcher(s: State, events: seq<Event>, script: Script, c: int) {
    && Inv(s) && AllAlive(s, events) && events != []
    && var s1 := BeginBatch(s, events);
    && (HeadIsAlive(s1, events); CallsFirst(s1, events[0]))
    && LegalEvent(s1, events, script) && !SafeEvent(s1, events, script)
    && c in s1.heap && c !in FirstCall(s1, events[0], script).0.heap
    && exists i :: 0 <= i < |Needed(events)| && Needed(events)[i].SocketEvent? && Needed(events)[i].ctx == c
  }

  lemma FreesAtOnce(s: State, events: seq<Event>, fd: int, k: nat)
    requires Inv(s) && NotATimerFd(s, fd) && fd in s.ctxMap && s.backend.Uring?
    requires AllAlive(s, events) && (forall i :: 0 <= i < |events| ==> events[i].SocketEvent?) && k < |events|
    requires events[0].readable && !events[0].fault && Callable(s, events[0].ctx)
    requires s.ctxMap[fd] == events[k].ctx && !s.heap[events[k].ctx].armed
    requires events[k].ctx !in s.rearm && OpCount(s.kernel, events[k].ctx) == 0
    ensures FreesUnderDispatcher(s, events, Removing(fd), events[k].ctx)
  {
    var c := events[k].ctx;
    SocketBatch(s, events);
    HeadIsAlive(s, events);
    RemovingScript(s, fd);
    RemovalFrees(s, fd, Deleted);
    assert !Live(FirstCall(s, events[0], Removing(fd)).0, c);
    assert Needed(events)[k].ctx == c;
  }

  /** The handler of a readable event removes its own socket: the context is freed, and then its socket is read again. */
  lemma RemovalCanFree()
    ensures Rest(Initial(Uring)) && LegalRun(Initial(Uring), Muting())
    ensures FreesAfter(Run(Initial(Uring), Muting()), UringAnswers(true, [], Stirred(), true), Removing(5), 1)
  {
    MutedRun();
    StirredFrees();
  }

  /** The wait succeeds, and the first handler of its batch frees `c` under the dispatcher. */
  ghost predicate FreesAfter(s: State, w: Answers, script: Script, c: int) {
    Inv(s) && Answerable(s, w) && Wait(s, w).2 && FreesUnderDispatcher(Wait(s, w).0, Wait(s, w).1, script, c)
  }

  lemma StirredFrees()
    requires Rest(Muted())
    ensures FreesAfter(Muted(), UringAnswers(true, [], Stirred(), true), Removing(5), 1)
  {
    StirredWait();
    BareFrees(Wait(Muted(), UringAnswers(true, [], Stirred(), true)).0);
  }

  lemma BareFrees(s: State)
    requires Inv(s) && s == Bare()
    ensures FreesUnderDispatcher(s, [ReadEvent(1)], Removing(5), 1)
  {
    FreesAtOnce(s, [ReadEvent(1)], 5, 0);
  }

  /** Sockets 7 and 8 are added on descriptors 5 and 6, and the mask of the second is set to 0. */
  function Pairing(): seq<Step> {
    [Call(AddSock(1, 7, 5, 1, true)), Call(AddSock(2, 8, 6, 1, true)), Call(ModSock(6, 0, true, true))]
  }

  /** Then both polls complete, readable, and the update is acknowledged. */
  function BothStirred(): seq<Cqe> {
    [Readable(1), Readable(2), Updated(2)]
  }

  function TwoArmed(): State {
    Ring(map[1 := Sock(2, 7, 5, 1, true, false, 1), 2 := Sock(2, 8, 6, 1, true, false, 1)], map[5 := 1, 6 := 2], [],
         multiset{Op(PollAdd, 1), Op(PollAdd, 2)}, 2)
  }

  function OneMuted(): State {
    Ring(map[1 := Sock(2, 7, 5, 1, true, false, 1), 2 := Sock(3, 8, 6, 0, true, false, 2)], map[5 := 1, 6 := 2], [],
         multiset{Op(PollAdd, 1), Op(PollAdd, 2), Op(PollUpdate, 2)}, 3)
  }

  /** The first context waits in the rearm queue, the second is held by the map alone. */
  function OneBare(): State {
    Ring(map[1 := Sock(2, 7, 5, 1, false, true, 0), 2 := Sock(1, 8, 6, 0, false, false, 0)], map[5 := 1, 6 := 2], [1], multiset{}, 0)
  }

  lemma TwoArmedState()
    ensures var a := AddSock(2, 8, 6, 1, true); MapOk(Armed()) && Legal(Armed(), a) && Apply(Armed(), a).0 == TwoArmed()
  {
  }

  lemma OneMutedState()
    ensures var a := ModSock(6, 0, true, true); MapOk(TwoArmed()) && Legal(TwoArmed(), a) && Apply(TwoArmed(), a).0 == OneMuted()
  {
  }

  lemma PairedRun()
    ensures Rest(Initial(Uring)) && LegalRun(Initial(Uring), Pairing()) && Run(Initial(Uring), Pairing()) == OneMuted() && Rest(OneMuted())
  {
    InitialIsAtRest(Uring);
    CallStep(Initial(Uring), AddSock(1, 7, 5, 1, true), Armed());
    TwoArmedState();
    CallStep(Armed(), AddSock(2, 8, 6, 1, true), TwoArmed());
    OneMutedState();
    CallStep(TwoArmed(), ModSock(6, 0, true, true), OneMuted());
    ThreeSteps(Initial(Uring), Armed(), TwoArmed(), Pairing()[0], Pairing()[1], Pairing()[2]);
  }

  lemma BothOps()
    ensures OpsOf(BothStirred()) == multiset{Op(PollAdd, 1), Op(PollAdd, 2), Op(PollUpdate, 2)}
  {
    assert BothStirred()[1..] == [Readable(2), Updated(2)] && [Readable(2), Updated(2)][1..] == [Updated(2)] && [Updated(2)][1..] == [];
  }

  /** After the first completion, and after the second. */
  function OneQueued(): State {
    Ring(map[1 := Sock(2, 7, 5, 1, false, true, 0), 2 := Sock(3, 8, 6, 0, true, false, 2)], map[5 := 1, 6 := 2], [1],
         multiset{Op(PollAdd, 2), Op(PollUpdate, 2)}, 2)
  }

  function OneLeft(): State {
    Ring(map[1 := Sock(2, 7, 5, 1, false, true, 0), 2 := Sock(2, 8, 6, 0, false, false, 1)], map[5 := 1, 6 := 2], [1],
         multiset{Op(PollUpdate, 2)}, 1)
  }

  lemma FirstQueued()
    ensures Leads(OneMuted(), Readable(1), OneQueued(), [ReadEvent(1)])
  {
    assert OneMuted().kernel - multiset{Op(PollAdd, 1)} == multiset{Op(PollAdd, 2), Op(PollUpdate, 2)};
  }

  lemma SecondLeft()
    ensures Leads(OneQueued(), Readable(2), OneLeft(), [ReadEvent(2)])
  {
    assert OneQueued().kernel - multiset{Op(PollAdd, 2)} == multiset{Op(PollUpdate, 2)};
  }

  lemma SecondBare()
    ensures Leads(OneLeft(), Updated(2), OneBare(), [])
  {
    assert multiset{Op(PollUpdate, 2)} - multiset{Op(PollUpdate, 2)} == multiset{};
  }

  lemma Joined(a: Event, b: Event)
    ensures [a] + [b] + [] == [a, b]
  {
  }

  lemma BothWait()
    requires Inv(OneMuted())
    ensures var w := UringAnswers(true, [], BothStirred(), true);
            Answerable(OneMuted(), w) && Wait(OneMuted(), w) == (OneBare(), [ReadEvent(1), ReadEvent(2)], true)
  {
    BothOps();
    FirstQueued();
    SecondLeft();
    SecondBare();
    WaitThree(OneMuted(), Readable(1), Readable(2), Updated(2), OneQueued(), OneLeft(), OneBare(), [ReadEvent(1)], [ReadEvent(2)], []);
    Joined(ReadEvent(1), ReadEvent(2));
  }

  lemma OneBareFrees(s: State)
    requires Inv(s) && s == OneBare()
    ensures FreesUnderDispatcher(s, [ReadEvent(1), ReadEvent(2)], Removing(6), 2)
  {
    FreesAtOnce(s, [ReadEvent(1), ReadEvent(2)], 6, 1);
  }

  lemma PairFrees()
    requires Rest(OneMuted())
    ensures FreesAfter(OneMuted(), UringAnswers(true, [], BothStirred(), true), Removing(6), 2)
  {
    BothWait();
    OneBareFrees(Wait(OneMuted(), UringAnswers(true, [], BothStirred(), true)).0);
  }

  /** The handler of one event removes the socket of a later one: that context is freed before its turn comes. */
  lemma EarlierHandlerCanFree()
    ensures Rest(Initial(Uring)) && LegalRun(Initial(Uring), Pairing())
    ensures FreesAfter(Run(Initial(Uring), Pairing()), UringAnswers(true, [], BothStirred(), true), Removing(6), 2)
  {
    PairedRun();
    PairFrees();
  }

  /** After a fault the dispatcher does not look back, so there a handler may well remove its own socket. */
  function Failing(): seq<Cqe> {
    [Cqe(Op(PollAdd, 1), false, false, false, false, true, true), Updated(1)]
  }

  function FaultEvent(c: int): Event {
    SocketEvent(c, false, false, true)
  }

  lemma FaultIsSafe(s: State, c: int, fd: int)
    requires Inv(s) && Live(s, c) && NotATimerFd(s, fd)
    ensures Dispatchable(s, [FaultEvent(c)]) && SafeBatch(s, [FaultEvent(c)], [Removing(fd)])
  {
    var events := [FaultEvent(c)];
    assert events[1..] == [] && TimersOf(events) == multiset{};
    HeadIsAlive(s, events);
    RemovingScript(s, fd);
    assert SafeEvent(s, events, Removing(fd));
  }

  lemma FirstFailing()
    ensures Leads(Muted(), Failing()[0], HalfBare(), [FaultEvent(1)])
  {
    assert multiset{Op(PollAdd, 1), Op(PollUpdate, 1)} - multiset{Op(PollAdd, 1)} == multiset{Op(PollUpdate, 1)};
  }

  lemma FailingWait()
    requires Inv(Muted())
    ensures var w := UringAnswers(true, [], Failing(), true);
            Answerable(Muted(), w) && Wait(Muted(), w) == (Bare(), [FaultEvent(1)], true)
  {
    FailingOps();
    FirstFailing();
    SecondStirred();
    WaitTwo(Muted(), Failing()[0], Updated(1), HalfBare(), Bare(), [FaultEvent(1)], []);
    assert [FaultEvent(1)] + [] == [FaultEvent(1)];
  }

  lemma FailingOps()
    ensures OpsOf(Failing()) == multiset{Op(PollAdd, 1), Op(PollUpdate, 1)}
  {
    assert Failing()[1..] == [Updated(1)] && [Updated(1)][1..] == [];
  }

  lemma FailingTurn(s: State, w: Answers)
    requires Rest(s) && s == Muted() && w == UringAnswers(true, [], Failing(), true)
    ensures LegalTurn(s, w, [Removing(5)])
  {
    FailingWait();
    WaitIsAlive(s, w);
    BareTurn(Wait(s, w).0);
  }

  lemma BareTurn(s: State)
    requires Inv(s) && s == Bare() && AllAlive(s, [FaultEvent(1)])
    ensures SafeBatch(BeginBatch(s, [FaultEvent(1)]), [FaultEvent(1)], [Removing(5)])
  {
    SocketBatch(s, [FaultEvent(1)]);
    FaultIsSafe(s, 1, 5);
  }

  lemma FaultHandlerMayRemove()
    ensures Rest(Initial(Uring)) && LegalRun(Initial(Uring), Muting()) && Rest(Run(Initial(Uring), Muting()))
    ensures LegalStep(Run(Initial(Uring), Muting()), Turn(UringAnswers(true, [], Failing(), true), [Removing(5)]))
  {
    MutedRun();
    FailingTurn(Muted(), UringAnswers(true, [], Failing(), true));
  }

  // ---------------------------------------------------------------- io_uring: the rearm array is full and cannot grow

  /** Socket `c` on descriptor `c`, for the `c`-th of many. */
  function Adding(c: nat): Action {
    AddSock(c, c, c, 1, true)
  }

  function Adds(k: nat, n: nat): seq<Step>
    decreases n - k
  {
    if k >= n then [] else [Call(Adding(k + 1))] + Adds(k + 1, n)
  }

  function Readies(k: nat, n: nat): (r: seq<Cqe>)
    ensures |r| == if k < n then n - k else 0
    decreases n - k
  {
    if k >= n then [] else [Readable(k + 1)] + Readies(k + 1, n)
  }

  function Queue(k: nat): (q: seq<int>)
    ensures |q| == k && forall c :: c in q ==> 1 <= c <= k
  {
    if k == 0 then [] else Queue(k - 1) + [k]
  }

  /** The first `k` of the contexts wait in the rearm queue, the others are polled. */
  function Member(c: int, k: nat): Context {
    if c <= k then Sock(2, c, c, 1, false, true, 0) else Sock(2, c, c, 1, true, false, 1)
  }

  function Descriptor(c: int): int { c }

  function Crowd(n: nat, k: nat): State {
    Ring(map c: int | 1 <= c <= n :: Member(c, k), map c: int | 1 <= c <= n :: Descriptor(c), Queue(k), OpsOf(Readies(k, n)), n - k)
  }

  lemma {:induction false} ReadiesSnoc(k: nat, n: nat)
    requires k <= n
    ensures Readies(k, n + 1) == Readies(k, n) + [Readable(n + 1)]
    decreases n - k
  {
    if k < n {
      ReadiesSnoc(k + 1, n);
    } else {
      assert Readies(k + 1, n + 1) == [];
    }
  }

  lemma OneOp(q: Cqe)
    ensures OpsOf([q]) == multiset{q.op}
  {
    assert [q][1..] == [];
  }

  lemma ReadiesOps(k: nat, n: nat)
    requires k <= n
    ensures OpsOf(Readies(k, n + 1)) == OpsOf(Readies(k, n)) + multiset{Op(PollAdd, n + 1)}
  {
    ReadiesSnoc(k, n);
    OpsConcat(Readies(k, n), [Readable(n + 1)]);
    OneOp(Readable(n + 1));
  }

  lemma AddingDoes(s: State, c: nat)
    requires MapOk(s) && s.backend.Uring? && c !in s.heap && c !in s.ctxMap && c < FD_LIMIT && s.timers == map[]
    ensures Legal(s, Adding(c))
    ensures Apply(s, Adding(c)).0 == s.(heap := s.heap[c := Sock(2, c, c, 1, true, false, 1)], ctxMap := s.ctxMap[c := c],
                                        kernel := s.kernel + multiset{Op(PollAdd, c)}, pendingTotal := s.pendingTotal + 1)
  {
  }

  lemma CrowdMaps(n: nat)
    ensures Crowd(n + 1, 0).heap == Crowd(n, 0).heap[n + 1 := Sock(2, n + 1, n + 1, 1, true, false, 1)]
    ensures Crowd(n + 1, 0).ctxMap == Crowd(n, 0).ctxMap[n + 1 := n + 1]
  {
  }

  lemma CrowdGrows(n: nat)
    requires n + 1 < FD_LIMIT
    ensures MapOk(Crowd(n, 0)) && Legal(Crowd(n, 0), Adding(n + 1)) && Apply(Crowd(n, 0), Adding(n + 1)).0 == Crowd(n + 1, 0)
  {
    ReadiesOps(0, n);
    CrowdMaps(n);
    AddingDoes(Crowd(n, 0), n + 1);
  }

  lemma CrowdStep(n: nat, s: State, s': State)
    requires n + 1 < FD_LIMIT && s == Crowd(n, 0) && s' == Crowd(n + 1, 0) && Rest(s)
    ensures LegalStep(s, Call(Adding(n + 1))) && Take(s, Call(Adding(n + 1))) == s' && Rest(s')
  {
    CrowdGrows(n);
    CallStep(s, Adding(n + 1), s');
  }

  lemma {:induction false} CrowdRests(n: nat)
    requires n < FD_LIMIT
    ensures Rest(Crowd(n, 0))
  {
    if n == 0 {
      InitialIsAtRest(Uring);
      NoCrowd();
    } else {
      CrowdRests(n - 1);
      CrowdStep(n - 1, Crowd(n - 1, 0), Crowd(n, 0));
    }
  }

  lemma NoCrowd()
    ensures Crowd(0, 0) == Initial(Uring)
  {
  }

  lemma AddsMore(k: nat, n: nat, tail: seq<Step>)
    requires k < n
    ensures Adds(k, n) + tail == [Call(Adding(k + 1))] + (Adds(k + 1, n) + tail)
  {
  }

  /** Adding the next socket leads from one state of the sequence `f` to the next. */
  ghost predicate AddsOne(f: nat -> State, j: nat) {
    Rest(f(j)) && Rest(f(j + 1)) && LegalStep(f(j), Call(Adding(j + 1))) && Take(f(j), Call(Adding(j + 1))) == f(j + 1)
  }

  lemma {:induction false} ChainRun(f: nat -> State, k: nat, n: nat, tail: seq<Step>)
    requires k <= n && (forall j: nat :: k <= j < n ==> AddsOne(f, j)) && Rest(f(k)) && Rest(f(n)) && LegalRun(f(n), tail)
    ensures LegalRun(f(k), Adds(k, n) + tail) && Run(f(k), Adds(k, n) + tail) == Run(f(n), tail)
    decreases n - k
  {
    if k == n {
      assert Adds(k, n) + tail == tail;
    } else {
      assert AddsOne(f, k);
      ChainRun(f, k + 1, n, tail);
      RunMore(f(k), Call(Adding(k + 1)), Adds(k + 1, n) + tail);
      AddsMore(k, n, tail);
    }
  }

  lemma CrowdRun(n: nat, s: State, s': State, tail: seq<Step>)
    requires n < FD_LIMIT && s == Crowd(0, 0) && s' == Crowd(n, 0) && Rest(s) && Rest(s') && LegalRun(s', tail)
    ensures LegalRun(s, Adds(0, n) + tail) && Run(s, Adds(0, n) + tail) == Run(s', tail)
  {
    var f := (j: nat) => Crowd(j, 0);
    forall j: nat | 0 <= j < n ensures AddsOne(f, j) {
      CrowdRests(j);
      CrowdStep(j, f(j), f(j + 1));
    }
    ChainRun(f, 0, n, tail);
  }

  lemma MemberKernel(n: nat, k: nat)
    requires k < n
    ensures OpsOf(Readies(k, n)) == multiset{Op(PollAdd, k + 1)} + OpsOf(Readies(k + 1, n))
    ensures OpsOf(Readies(k, n)) - multiset{Op(PollAdd, k + 1)} == OpsOf(Readies(k + 1, n))
  {
    assert Readies(k, n) == [Readable(k + 1)] + Readies(k + 1, n) && Readies(k, n)[1..] == Readies(k + 1, n);
  }

  lemma MemberMoves(n: nat, k: nat)
    requires k < n
    ensures Crowd(n, k + 1).heap == Crowd(n, k).heap[k + 1 := Sock(2, k + 1, k + 1, 1, false, true, 0)]
    ensures Crowd(n, k + 1).ctxMap == Crowd(n, k).ctxMap && Crowd(n, k + 1).rearm == Crowd(n, k).rearm + [k + 1]
  {
  }

  lemma ReadyDoes(s: State, c: int)
    requires c in s.heap && s.heap[c] == Sock(2, c, c, 1, true, false, 1) && |s.rearm| < s.slots
    ensures Leads(s, Readable(c), Complete(s, Readable(c)), [ReadEvent(c)])
    ensures Complete(s, Readable(c)) == s.(heap := s.heap[c := Sock(2, c, c, 1, false, true, 0)], rearm := s.rearm + [c],
                                           kernel := s.kernel - multiset{Op(PollAdd, c)}, pendingTotal := s.pendingTotal - 1)
  {
  }

  lemma MemberLeads(n: nat, k: nat)
    requires k < n && k < 64
    ensures Leads(Crowd(n, k), Readable(k + 1), Crowd(n, k + 1), [ReadEvent(k + 1)])
  {
    MemberKernel(n, k);
    MemberMoves(n, k);
    ReadyDoes(Crowd(n, k), k + 1);
  }

  lemma {:induction false} ReadiesFit(k: nat, m: nat, n: nat)
    requires k <= m <= n
    ensures OpsOf(Readies(k, m)) <= OpsOf(Readies(k, n))
    decreases n - m
  {
    if m < n {
      ReadiesFit(k, m, n - 1);
      ReadiesOps(k, n - 1);
    }
  }

  /** The polls complete one after the other, and their contexts queue up. */
  lemma {:induction false} CrowdQueues(n: nat, k: nat, m: nat, events: seq<Event>)
    requires k <= m <= n && m <= 64 && Inv(Crowd(n, k)) && |events| == k
    ensures OpsOf(Readies(k, m)) <= Crowd(n, k).kernel
    ensures var h := Completions(Crowd(n, k), Readies(k, m), events); h.state == Crowd(n, m) && !h.oom
    decreases m - k
  {
    ReadiesFit(k, m, n);
    if k < m {
      MemberLeads(n, k);
      TakeOne(Crowd(n, k), Readable(k + 1), Readies(k + 1, m), events, Crowd(n, k + 1), [ReadEvent(k + 1)]);
      CrowdQueues(n, k + 1, m, events + [ReadEvent(k + 1)]);
    }
  }

  /** `n` sockets are added, and the first `m` of them become readable in one wait. */
  function Crowding(n: nat, m: nat): seq<Step> {
    Adds(0, n) + [Poll(Crush(m))]
  }

  function Crush(m: nat): Answers {
    UringAnswers(true, [], Readies(0, m), true)
  }

  lemma CrowdPoll(n: nat, m: nat, s: State)
    requires m <= n && m <= 64 && s == Crowd(n, 0) && Inv(s)
    ensures Answerable(s, Crush(m)) && Wait(s, Crush(m)).0 == Crowd(n, m)
  {
    CrowdQueues(n, 0, m, []);
    WaitStep(s, Readies(0, m), Completions(s, Readies(0, m), []));
  }

  lemma CrowdedRun(n: nat, m: nat, s0: State, s1: State)
    requires m <= n < FD_LIMIT && m <= 64 && s0 == Initial(Uring) && s1 == Crowd(n, 0)
    ensures Rest(s0) && LegalRun(s0, Crowding(n, m)) && Run(s0, Crowding(n, m)) == Crowd(n, m) && Rest(Crowd(n, m))
  {
    NoCrowd();
    CrowdRests(0);
    CrowdRests(n);
    CrowdPoll(n, m, s1);
    RunLast(s1, Poll(Crush(m)));
    CrowdRun(n, s0, s1, [Poll(Crush(m))]);
  }

  /** A ring that is full takes no poll: the queue goes round once. */
  lemma {:induction false} DrainRefused(s: State, a: seq<int>, b: seq<int>, oks: seq<bool>)
    requires Inv(s) && s.backend.Uring? && s.rearm == a + b && |oks| == |a| && (forall i :: 0 <= i < |oks| ==> !oks[i])
    requires forall c :: c in s.rearm ==> c in s.heap && !s.heap[c].closing && s.heap[c].mask != 0
    ensures Drain(s, oks) == s.(rearm := b + a)
    decreases |oks|
  {
    if oks == [] {
      assert a + b == b + a;
    } else {
      DrainOneKeeps(s, oks[0]);
      var s' := DrainOne(s, oks[0]);
      assert s'.rearm == a[1..] + (b + [a[0]]);
      DrainRefused(s', a[1..], b + [a[0]], oks[1..]);
      assert b + [a[0]] + a[1..] == b + a;
    }
  }

  /** In the next wait the ring is full, and memory runs out when the last socket becomes readable. */
  function Losing(): Answers {
    UringAnswers(true, seq(64, i => false), [Readable(65).(allocOk := false)], true)
  }

  lemma FullDrain(s: State)
    requires Inv(s) && s == Crowd(65, 64)
    ensures Drain(s, Losing().oks) == s
  {
    assert Queue(64) == Queue(64) + [] && [] + Queue(64) == Queue(64);
    DrainRefused(s, Queue(64), [], Losing().oks);
  }

  lemma LastIsLost(s: State, q: Cqe)
    requires Inv(s) && s == Crowd(65, 64) && q == Losing().cqes[0]
    ensures q.op.ctx in s.heap && NoRoom(s, q) && OpsOf([q]) <= s.kernel && !Awake(Complete(s, q), 65)
  {
    assert Readies(65, 65) == [] && Readies(64, 65) == [Readable(65)];
    OneOp(Readable(65));
    OneOp(q);
    var x := Complete(s, q).heap[65];
    assert x.mask != 0 && !x.armed && !x.queued && InMap(Complete(s, q), 65);
  }

  lemma LosingWait(s: State)
    requires Inv(s) && s == Crowd(65, 64)
    ensures Answerable(s, Losing()) && !Wait(s, Losing()).2 && !Awake(Wait(s, Losing()).0, 65)
  {
    var q := Losing().cqes[0];
    FullDrain(s);
    LastIsLost(s, q);
    assert [q][1..] == [];
    CompletionTurn(s, [q], [], Complete(s, q), [] + Reported(s.heap[65], q));
  }

  /** Of sixty-five sockets sixty-four fill the rearm array; then a watched socket is neither polled nor queued, and the wait fails. */
  lemma WakeUpCanBeLost()
    ensures Rest(Initial(Uring)) && LegalRun(Initial(Uring), Crowding(65, 64))
    ensures var s := Run(Initial(Uring), Crowding(65, 64));
            Inv(s) && |s.rearm| == s.slots && Answerable(s, Losing()) && !Wait(s, Losing()).2 && !AllAwake(Wait(s, Losing()).0)
  {
    CrowdedRun(65, 64, Initial(Uring), Crowd(65, 0));
    LosingWait(Crowd(65, 64));
  }

  // ---------------------------------------------------------------- epoll: a descriptor closed without being removed

  /** Socket 7 is added on descriptor 5 and closed. */
  function Closing(): seq<Step> {
    [Call(AddSock(1, 7, 5, 1, true)), Call(CloseSock(7, 5))]
  }

  function Watching(interest: map<int, int>, closed: set<int>): State {
    State(Epoll, map[1 := Sock(1, 7, 5, 1, false, false, 0)], map[5 := 1], [], 64, [], multiset{}, 0, interest, map[], [], multiset{}, closed)
  }

  lemma ClosedRun()
    ensures Rest(Initial(Epoll)) && LegalRun(Initial(Epoll), Closing())
    ensures Run(Initial(Epoll), Closing()) == Watching(map[], {7}) && Rest(Watching(map[], {7}))
  {
    InitialIsAtRest(Epoll);
    CallStep(Initial(Epoll), AddSock(1, 7, 5, 1, true), Watching(map[5 := 1], {}));
    CallStep(Watching(map[5 := 1], {}), CloseSock(7, 5), Watching(map[], {7}));
    TwoSteps(Initial(Epoll), Watching(map[5 := 1], {}), Closing()[0], Closing()[1]);
  }

  /** The kernel takes the reused descriptor, and the context of the closed socket stays allocated without an owner. */
  lemma EpollAddCanLeak()
    ensures Rest(Initial(Epoll)) && LegalRun(Initial(Epoll), Closing())
    ensures var s := Run(Initial(Epoll), Closing());
            && KernelAdds(s, 5, true) && Stale(s, 5)
            && var s' := AddContext(s, 2, SocketOwner(Some(8)), 5, 1, true).0;
               1 in s'.heap && 1 !in s'.ctxMap.Values && 1 !in s'.deferred && !ContextsOk(s')
  {
    ClosedRun();
    EpollAddLeaksIff(Watching(map[], {7}), 2, SocketOwner(Some(8)), 5, 1, true);
  }
}
