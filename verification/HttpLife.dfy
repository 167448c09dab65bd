/**
 A connection of src/http_server.c with its bytes: the flags that HttpServer keeps and the queue of HttpOutput,
 together, over its whole life.  What was appended is sent, or it is known why not.
 */
module HttpLife {
  import opened Common
  import opened HttpOutput
  import opened S = HttpServer

  /** `sent` and `appended` are the bytes of the whole life; `queue` is what waits in the buffer. */
  datatype Conn = Conn(flags: Flags, queue: bytes, sent: bytes, appended: bytes, interest: Interest)

  const NEW_CONN := Conn(Flags(false, false, false, false, false, 0), [], [], [], ReadOnly)

  /** What one flush is answered: by send, by event_backend_modify and by event_backend_remove. */
  datatype Answer = Answer(open: bool, sends: seq<Send>, modifyOk: bool, removeOk: bool)

  datatype Op =
    | Appends(data: bytes)                // HttpConnection_append_send
    | Flushes(a: Answer)                  // HttpConnection_flush
    | Upgrades                            // the response was 101
    | Closes(a: Answer)                   // HttpConnection_ws_close
    | Begins(a: Answer)                   // the turn of this connection in HttpServer_begin_shutdown
    | Shuts(removeOk: bool)               // conn_shutdown, after an error or at the end of a response
    | Sweeps(removeOk: bool)              // its turn in HttpServer_sweep_closing
    | Forces(removeOk: bool)              // its turn in a tick past the deadline

  const CLOSE_FRAME: bytes := [0x88, 0]

  function Append(c: Conn, data: bytes): Conn {
    c.(queue := c.queue + data, appended := c.appended + data, flags := c.flags.(outLen := c.flags.outLen + |data|))
  }

  function FlowOf(c: Conn, a: Answer): Flow {
    Flowed(c.queue, c.interest, c.flags.closing, !c.flags.done, a.sends, a.modifyOk)
  }

  function Flush(c: Conn, a: Answer): Conn {
    if !a.open then c
    else
      var r := FlowOf(c, a);
      Conn(Flushed(c.flags, Outcome(|r.left|, r.good), a.removeOk), r.left, c.sent + r.sent, c.appended, r.interest)
  }

  function WsClose(c: Conn, a: Answer): Conn {
    if !c.flags.ws || c.flags.closing then c
    else
      var c1 := c.(flags := c.flags.(closing := true));
      if a.open then Flush(Append(c1, CLOSE_FRAME), a) else c1
  }

  function Shut(f: Flags, removeOk: bool): Flags {
    if f.done || f.pending then f
    else f.(closing := true, notified := f.notified || f.ws, done := removeOk, pending := !removeOk)
  }

  function Step(c: Conn, op: Op): Conn {
    match op
    case Appends(data) => Append(c, data)
    case Flushes(a) => Flush(c, a)
    case Upgrades => if c.flags.closing then c else c.(flags := c.flags.(ws := true))
    case Closes(a) => WsClose(c, a)
    case Begins(a) =>
      if c.flags.done then c
      else if c.flags.ws then WsClose(c, a)
      else c.(flags := Shut(c.flags.(closing := true), a.removeOk))
    case Shuts(removeOk) => c.(flags := Shut(c.flags, removeOk))
    case Sweeps(removeOk) => c.(flags := Swept(c.flags, removeOk))
    case Forces(removeOk) => if c.flags.done then c else c.(queue := [], flags := Forced(c.flags, removeOk))
  }

  function Live(c: Conn, ops: seq<Op>): Conn
    decreases |ops|
  {
    if ops == [] then c else Live(Step(c, ops[0]), ops[1..])
  }

  /** Every byte appended was sent or waits, and the connection is being removed only with nothing waiting. */
  predicate Whole(c: Conn) {
    && c.flags.outLen == |c.queue| && c.sent + c.queue == c.appended
    && (c.flags.pending || c.flags.done ==> c.flags.closing && c.queue == [])
  }

  /** The flush fails with bytes left, and not because the connection is gone already. */
  predicate Fails(c: Conn, a: Answer) {
    a.open && !FlowOf(c, a).good && FlowOf(c, a).left != [] && !c.flags.pending && !c.flags.done
  }

  /** What costs a connection bytes, told from the connection before it happens. */
  predicate Rude(c: Conn, op: Op) {
    match op
    case Appends(data) => data != [] && (c.flags.pending || c.flags.done)
    case Flushes(a) => Fails(c, a)
    case Upgrades => false
    case Closes(a) => RudeClose(c, a)
    case Begins(a) => if c.flags.ws then RudeClose(c, a) else c.queue != []
    case Shuts(_) => c.queue != []
    case Sweeps(_) => false
    case Forces(_) => c.queue != []
  }

  predicate RudeClose(c: Conn, a: Answer) {
    c.flags.ws && !c.flags.closing && a.open && Fails(Append(c.(flags := c.flags.(closing := true)), CLOSE_FRAME), a)
  }

  lemma FlowConserves(c: Conn, a: Answer)
    ensures FlowOf(c, a).sent + FlowOf(c, a).left == c.queue
    ensures c.queue == [] ==> FlowOf(c, a).left == []
  {
    DrainConserves(c.queue, a.sends);
  }

  /** Bytes that a flush leaves waiting are not forgotten: if nothing failed, the backend watches for room to write. */
  lemma FlushWatches(c: Conn, a: Answer)
    requires a.open && !c.flags.done && FlowOf(c, a).good
    ensures Flush(c, a).queue != [] ==> Flush(c, a).interest != ReadOnly
    ensures Flush(c, a).queue == [] && !c.flags.closing ==> Flush(c, a).interest == ReadOnly
  {
    FlowWants(c.queue, c.interest, c.flags.closing, true, a.sends, a.modifyOk);
  }

  lemma FlushConserves(c: Conn, a: Answer)
    requires c.sent + c.queue == c.appended
    ensures Flush(c, a).sent + Flush(c, a).queue == c.appended
  {
    var r := FlowOf(c, a);
    FlowConserves(c, a);
    Regroup(c.sent, r.sent, r.left);
  }

  /** A flush of a connection in order keeps it so exactly when it does not fail with bytes left. */
  lemma FlushWhole(c: Conn, a: Answer)
    requires Whole(c)
    ensures Whole(Flush(c, a)) <==> !Fails(c, a)
  {
    FlowConserves(c, a);
    FlushConserves(c, a);
  }

  lemma AppendWhole(c: Conn, data: bytes)
    requires Whole(c)
    ensures Append(c, data).sent + Append(c, data).queue == Append(c, data).appended
    ensures Whole(Append(c, data)) <==> !(data != [] && (c.flags.pending || c.flags.done))
  {
    Regroup(c.sent, c.queue, data);
  }

  lemma WsCloseWhole(c: Conn, a: Answer)
    requires Whole(c)
    ensures Whole(WsClose(c, a)) <==> !RudeClose(c, a)
  {
    if c.flags.ws && !c.flags.closing {
      var c1 := c.(flags := c.flags.(closing := true));
      if a.open {
        AppendWhole(c1, CLOSE_FRAME);
        FlushWhole(Append(c1, CLOSE_FRAME), a);
      }
    }
  }

  lemma ForcesWhole(c: Conn, removeOk: bool)
    requires Whole(c)
    ensures Whole(Step(c, Forces(removeOk))) <==> c.queue == []
  {
    if c.queue != [] && !c.flags.done {
      assert |c.sent + []| < |c.sent + c.queue|;
    }
  }

  /** Each step keeps a connection in order exactly when it is not rude. */
  lemma StepIff(c: Conn, op: Op)
    requires Whole(c)
    ensures Whole(Step(c, op)) <==> !Rude(c, op)
  {
    match op
    case Appends(data) => AppendWhole(c, data);
    case Flushes(a) => FlushWhole(c, a);
    case Closes(a) => WsCloseWhole(c, a);
    case Begins(a) => if c.flags.ws { WsCloseWhole(c, a); }
    case Forces(removeOk) => ForcesWhole(c, removeOk);
    case _ =>
  }

  predicate Polite(c: Conn, ops: seq<Op>)
    decreases |ops|
  {
    ops == [] || (!Rude(c, ops[0]) && Polite(Step(c, ops[0]), ops[1..]))
  }

  /**
   Over any life without a rude step, a connection leaves the server only after all that was ever appended has been
   sent, in order, and nothing else.
   */
  lemma {:induction false} EveryLife(c: Conn, ops: seq<Op>)
    requires Whole(c) && Polite(c, ops)
    ensures Whole(Live(c, ops)) && (Live(c, ops).flags.done ==> Live(c, ops).sent == Live(c, ops).appended)
    decreases |ops|
  {
    if ops == [] {
      if c.flags.done { assert c.sent + [] == c.sent; }
    } else {
      StepIff(c, ops[0]);
      EveryLife(Step(c, ops[0]), ops[1..]);
    }
  }

  // ---------------------------------------------------------------- what the socket takes over a life

  /** A close frame is put into the queue and flushed. */
  predicate Greets(c: Conn, a: Answer) { c.flags.ws && !c.flags.closing && a.open }

  /** The bytes that a step appends, and the answers that send gives in it. */
  function Adds(c: Conn, op: Op): bytes {
    match op
    case Appends(data) => data
    case Closes(a) => if Greets(c, a) then CLOSE_FRAME else []
    case Begins(a) => if !c.flags.done && Greets(c, a) then CLOSE_FRAME else []
    case _ => []
  }

  function Sends(c: Conn, op: Op): seq<Send> {
    match op
    case Flushes(a) => if a.open then a.sends else []
    case Closes(a) => if Greets(c, a) then a.sends else []
    case Begins(a) => if !c.flags.done && Greets(c, a) then a.sends else []
    case _ => []
  }

  /** What the socket takes in a step: from the front of the queue, as much as its answers say. */
  function Takes(c: Conn, op: Op): bytes {
    var q := c.queue + Adds(c, op);
    q[..Share(q, Sends(c, op))]
  }

  lemma FlushTakes(c: Conn, a: Answer)
    ensures var m := Share(c.queue, if a.open then a.sends else []);
            Flush(c, a).sent == c.sent + c.queue[..m] && Flush(c, a).queue == c.queue[m..] && Flush(c, a).appended == c.appended
  {
    if a.open { DrainIsShare(c.queue, a.sends); } else { assert c.sent + [] == c.sent; }
  }

  lemma GreetingTakes(c: Conn, a: Answer, op: Op)
    requires op == Op.Closes(a) || (op == Op.Begins(a) && c.flags.ws && !c.flags.done)
    ensures var c' := WsClose(c, a);
            c'.appended == c.appended + Adds(c, op) && c'.sent == c.sent + Takes(c, op) && c'.queue == (c.queue + Adds(c, op))[|Takes(c, op)|..]
  {
    if Greets(c, a) {
      FlushTakes(Append(c.(flags := c.flags.(closing := true)), CLOSE_FRAME), a);
    } else {
      assert c.queue + [] == c.queue && c.appended + [] == c.appended && c.sent + [] == c.sent;
    }
  }

  /** Every step takes from the queue exactly what the socket takes; only a forced close drops the rest. */
  lemma StepTakes(c: Conn, op: Op)
    ensures var c' := Step(c, op);
            && c'.appended == c.appended + Adds(c, op) && c'.sent == c.sent + Takes(c, op)
            && c'.queue == if op.Forces? && !c.flags.done then [] else (c.queue + Adds(c, op))[|Takes(c, op)|..]
  {
    match op
    case Appends(_) => assert c.sent + [] == c.sent;
    case Flushes(a) =>
      FlushTakes(c, a);
      assert c.queue + [] == c.queue && c.appended + [] == c.appended;
    case Closes(a) => GreetingTakes(c, a, op);
    case Begins(a) =>
      if c.flags.ws && !c.flags.done {
        GreetingTakes(c, a, op);
      } else {
        assert c.queue + [] == c.queue && c.appended + [] == c.appended && c.sent + [] == c.sent;
      }
    case _ => assert c.queue + [] == c.queue && c.appended + [] == c.appended && c.sent + [] == c.sent;
  }

  /** The count that the server keeps of waiting bytes stays the length of the queue. */
  lemma StepCounts(c: Conn, op: Op)
    requires c.flags.outLen == |c.queue|
    ensures Step(c, op).flags.outLen == |Step(c, op).queue|
  {
  }

  /** All that was appended and all that the socket took, over a life. */
  function AllAdds(c: Conn, ops: seq<Op>): bytes
    decreases |ops|
  {
    if ops == [] then [] else Adds(c, ops[0]) + AllAdds(Step(c, ops[0]), ops[1..])
  }

  function AllTakes(c: Conn, ops: seq<Op>): bytes
    decreases |ops|
  {
    if ops == [] then [] else Takes(c, ops[0]) + AllTakes(Step(c, ops[0]), ops[1..])
  }

  /** `sent` and `appended` are what the socket took and what was appended, over every life. */
  lemma {:induction false} LifeOnTheWire(c: Conn, ops: seq<Op>)
    ensures Live(c, ops).appended == c.appended + AllAdds(c, ops) && Live(c, ops).sent == c.sent + AllTakes(c, ops)
    decreases |ops|
  {
    if ops == [] {
      assert c.appended + [] == c.appended && c.sent + [] == c.sent;
    } else {
      var c' := Step(c, ops[0]);
      StepTakes(c, ops[0]);
      LifeOnTheWire(c', ops[1..]);
      Regroup(c.appended, Adds(c, ops[0]), AllAdds(c', ops[1..]));
      Regroup(c.sent, Takes(c, ops[0]), AllTakes(c', ops[1..]));
    }
  }

  /** Over a whole life without a rude step, the socket takes what was appended, from its front, and in the end all of it. */
  lemma WholeLife(ops: seq<Op>)
    requires Polite(NEW_CONN, ops)
    ensures AllTakes(NEW_CONN, ops) <= AllAdds(NEW_CONN, ops)
    ensures Live(NEW_CONN, ops).flags.done ==> AllTakes(NEW_CONN, ops) == AllAdds(NEW_CONN, ops)
  {
    EveryLife(NEW_CONN, ops);
    LifeOnTheWire(NEW_CONN, ops);
    assert [] + AllAdds(NEW_CONN, ops) == AllAdds(NEW_CONN, ops) && [] + AllTakes(NEW_CONN, ops) == AllTakes(NEW_CONN, ops);
  }

  // ---------------------------------------------------------------- who is told of the close

  /** on_ws_close has been called exactly for a WebSocket that is being removed or gone. */
  predicate Told(f: Flags) {
    && !(f.pending && f.done) && (f.pending || f.done ==> f.closing)
    && (f.notified <==> f.ws && (f.pending || f.done))
  }

  lemma StepTells(c: Conn, op: Op)
    requires Told(c.flags)
    ensures Told(Step(c, op).flags)
  {
  }

  lemma {:induction false} LifeTells(c: Conn, ops: seq<Op>)
    requires Told(c.flags)
    ensures Told(Live(c, ops).flags)
    decreases |ops|
  {
    if ops != [] {
      StepTells(c, ops[0]);
      LifeTells(Step(c, ops[0]), ops[1..]);
    }
  }

  /** Over every life of a connection, whatever fails. */
  lemma EveryLifeTells(ops: seq<Op>)
    ensures Told(Live(NEW_CONN, ops).flags)
  {
    LifeTells(NEW_CONN, ops);
  }

  /** A response that the socket could not take at once is cut when its connection is not kept alive. */
  lemma ResponseCanBeCut(b: byte)
    ensures var ops := [Op.Appends([b]), Op.Flushes(Answer(true, [WouldBlock], true, true)), Shuts(true)];
            var c := Live(NEW_CONN, ops); Whole(NEW_CONN) && c.flags.done && c.appended == [b] && c.sent == []
  {
    var c1 := Append(NEW_CONN, [b]);
    var a := Answer(true, [WouldBlock], true, true);
    var c2 := Flush(c1, a);
    assert FlowOf(c1, a) == Flow([], [b], ReadWrite, true);
    var ops := [Op.Appends([b]), Op.Flushes(a), Shuts(true)];
    assert ops[1..] == [Op.Flushes(a), Shuts(true)] && ops[1..][1..] == [Shuts(true)] && ops[1..][1..][1..] == [];
    assert Live(NEW_CONN, ops) == Live(c1, ops[1..]) == Live(c2, ops[1..][1..]) == Live(Step(c2, Shuts(true)), []);
  }

  /** What the close frame and the flush after it come to. */
  function CloseOutcome(c: Conn, a: Answer): Outcome {
    var r := FlowOf(Append(c.(flags := c.flags.(closing := true)), CLOSE_FRAME), a);
    Outcome(|r.left|, r.good)
  }

  /** The turn of a connection in begin_shutdown is what HttpServer.BeginShutdown does to its flags. */
  lemma BeginsAgrees(c: Conn, a: Answer)
    requires c.flags.outLen == |c.queue|
    ensures Step(c, Op.Begins(a)).flags == Closed(c.flags, Env(a.open, CloseOutcome(c, a), a.removeOk))
  {
    FlowConserves(Append(c.(flags := c.flags.(closing := true)), CLOSE_FRAME), a);
  }

  // ---------------------------------------------------------------- both objects

  /** The server's connection and its queue, seen together. */
  ghost function View(c: HttpConnection, q: OutQueue): Conn
    reads c, q, q.outBuf
    requires q.Valid()
  {
    Conn(c.flags, q.outBuf[..q.outLen], q.sent, q.appended, q.interest)
  }

  /** The queue's copy of is_closing is that of the connection. */
  ghost predicate Together(c: HttpConnection, q: OutQueue)
    reads c, q, q.outBuf
  {
    q.Valid() && q.isClosing == c.flags.closing && c.flags.outLen == q.outLen
  }

  /** HttpConnection_flush on the objects is the flush of the life above. */
  method FlushConnection(s: HttpServer, c: HttpConnection, q: OutQueue, a: Answer)
    requires s.Valid() && c in s.all && Together(c, q)
    modifies s`connsHead, s`conns, s`deferred, s`closeCalls, s`timer, s`running, s.all`prev, s.all`next, c`server, c`flags
    modifies q`outLen, q`sent, q`isWriteRegistered, q`closeWriteOnlyRegistered, q`interest, q`isClosing, q.outBuf
    ensures s.Valid() && Together(c, q) && View(c, q) == Flush(old(View(c, q)), a)
  {
    if !a.open {
      return;
    }
    var keep, good := q.Flush(a.sends, a.modifyOk, !c.flags.done, c.flags.pending);
    ghost var r := FlowOf(old(View(c, q)), a);
    assert q.outBuf[..q.outLen] == r.left && q.outLen == |r.left|;
    FlowConserves(old(View(c, q)), a);
    FlushFlags(s, c, q, good, a.removeOk);
  }

  /** The second half of a flush: the flags follow from what is left in the queue. */
  method FlushFlags(s: HttpServer, c: HttpConnection, q: OutQueue, good: bool, removeOk: bool)
    requires s.Valid() && c in s.all && q.Valid() && q.isClosing == c.flags.closing && q.outLen <= c.flags.outLen
    modifies s`connsHead, s`conns, s`deferred, s`closeCalls, s`timer, s`running, s.all`prev, s.all`next, c`server, c`flags
    modifies q`isClosing
    ensures s.Valid() && Together(c, q) && c.flags == Flushed(old(c.flags), Outcome(q.outLen, good), removeOk)
  {
    s.Flush(c, true, Outcome(q.outLen, good), removeOk);
    if c.flags.closing {
      q.MarkClosing();
    }
  }
}
