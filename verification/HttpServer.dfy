/**
 The life of connections in src/http_server.c: an intrusive doubly linked list, removal from the event backend
 that may fail and is retried, deferred release, and graceful shutdown.
 */
module HttpServer {

  /** The state of a connection apart from its place in the list. */
  datatype Flags = Flags(ws: bool, closing: bool, pending: bool, done: bool, notified: bool, outLen: nat)

  class HttpConnection {
    var prev: HttpConnection?
    var next: HttpConnection?
    var server: HttpServer?
    var flags: Flags

    constructor (server: HttpServer)
      ensures prev == null && next == null && this.server == server && flags == Flags(false, false, false, false, false, 0)
    {
      prev, next, this.server, flags := null, null, server, Flags(false, false, false, false, false, 0);
    }
  }

  ghost predicate NoRepeats(s: seq<HttpConnection>) {
    forall i: int, j: int :: DifferAt(s, i, j)
  }

  ghost predicate DifferAt(s: seq<HttpConnection>, i: int, j: int) {
    0 <= i < j < |s| ==> s[i] != s[j]
  }

  ghost function Members(s: seq<HttpConnection>): set<HttpConnection> { set c | c in s }

  lemma InFront(c: HttpConnection, a: seq<HttpConnection>, s: seq<HttpConnection>, known: set<HttpConnection>)
    ensures [c] + (a + s) == [c] + a + s && known + Members(a) + {c} == known + Members([c] + a)
  {
  }

  lemma NoRepeatsSnoc(s: seq<HttpConnection>, c: HttpConnection)
    requires NoRepeats(s) && c !in s
    ensures NoRepeats(s + [c])
  {
    forall i: int, j: int ensures DifferAt(s + [c], i, j) { assert DifferAt(s, i, j); }
  }

  lemma NoRepeatsCons(s: seq<HttpConnection>, c: HttpConnection)
    requires NoRepeats(s) && c !in s
    ensures NoRepeats([c] + s)
  {
    forall i: int, j: int ensures DifferAt([c] + s, i, j) { assert DifferAt(s, i - 1, j - 1); }
  }

  lemma NoRepeatsWithout(s: seq<HttpConnection>, k: nat)
    requires NoRepeats(s) && k < |s|
    ensures NoRepeats(s[..k] + s[k + 1..]) && s[k] !in s[..k] + s[k + 1..]
    ensures forall c :: c in s <==> c == s[k] || c in s[..k] + s[k + 1..]
  {
    var r := s[..k] + s[k + 1..];
    forall i: int, j: int ensures DifferAt(r, i, j) {
      assert DifferAt(s, if i < k then i else i + 1, if j < k then j else j + 1);
    }
    forall i: int | 0 <= i < |s| && i != k ensures s[i] != s[k] && s[i] in r {
      assert DifferAt(s, i, k) && DifferAt(s, k, i);
      if i < k { assert r[i] == s[i]; } else { assert r[i - 1] == s[i]; }
    }
  }

  lemma EmptyOrNot(s: seq<HttpConnection>)
    ensures s == [] || exists c :: c in s
  {
    if s != [] { assert s[0] in s; }
  }

  lemma NoRepeatsTail(s: seq<HttpConnection>, k: nat)
    requires NoRepeats(s) && k < |s|
    ensures s[k] !in s[k + 1..] && s[k..] == [s[k]] + s[k + 1..]
  {
    forall i | k < i < |s| ensures s[i] != s[k] { assert DifferAt(s, k, i); }
  }

  /** Entry `o` differs from its neighbours at and around `k`, as far as they are other entries. */
  lemma Apart(s: seq<HttpConnection>, o: nat, k: nat)
    requires NoRepeats(s) && o < |s| && k < |s| && o != k
    ensures s[o] != s[k]
    ensures k > 0 && o != k - 1 ==> s[o] != s[k - 1]
    ensures k + 1 < |s| && o != k + 1 ==> s[o] != s[k + 1]
    ensures 0 < k && k + 1 < |s| ==> s[k - 1] != s[k + 1]
    ensures 0 < k ==> s[k - 1] != s[k]
    ensures k + 1 < |s| ==> s[k] != s[k + 1]
  {
    assert DifferAt(s, o, k) && DifferAt(s, k, o);
    assert DifferAt(s, o, k - 1) && DifferAt(s, k - 1, o) && DifferAt(s, o, k + 1) && DifferAt(s, k + 1, o);
    assert DifferAt(s, k - 1, k) && DifferAt(s, k, k + 1) && DifferAt(s, k - 1, k + 1);
  }

  /** How many clients the backend takes on. */
  function Taken(clients: seq<bool>): nat {
    if clients == [] then 0 else (if clients[|clients| - 1] then 1 else 0) + Taken(clients[..|clients| - 1])
  }

  lemma TakenMore(clients: seq<bool>, i: nat)
    requires i < |clients|
    ensures Taken(clients[..i + 1]) == Taken(clients[..i]) + if clients[i] then 1 else 0
  {
    assert clients[..i + 1][..i] == clients[..i];
  }

  class HttpServer {
    var connsHead: HttpConnection?
    var listening: bool                    // the listening socket is there
    var shuttingDown: bool
    var startedMs: nat
    var timer: bool                        // the retry timer is there
    var drainCount: nat
    var running: bool                      // the event loop runs
    var deferred: seq<HttpConnection>      // handed over for deferred release, over the whole run
    var closeCalls: seq<HttpConnection>    // calls of on_ws_close, over the whole run
    ghost var conns: seq<HttpConnection>   // the list
    ghost var all: set<HttpConnection>     // every connection ever accepted

    constructor ()
      ensures Valid() && fresh(this) && conns == [] && all == {} && deferred == [] && closeCalls == [] && !shuttingDown
    {
      connsHead, listening, shuttingDown, startedMs, timer, drainCount, running := null, true, false, 0, false, 0, true;
      deferred, closeCalls, conns, all := [], [], [], {};
    }

    ghost function At(i: int): HttpConnection?
      reads this`conns
    {
      if 0 <= i < |conns| then conns[i] else null
    }

    ghost predicate LinkedAt(i: int)
      reads this`conns, this`all, all`prev, all`next
      requires forall c :: c in conns ==> c in all
    {
      0 <= i < |conns| ==> conns[i].prev == At(i - 1) && conns[i].next == At(i + 1)
    }

    /** The list is linked both ways, in order, without repeats. */
    ghost predicate ListOk()
      reads this`conns, this`all, this`connsHead, all`prev, all`next
    {
      && (forall c :: c in conns ==> c in all)
      && NoRepeats(conns) && connsHead == At(0)
      && forall i: int :: LinkedAt(i)
    }

    /** Linked until the shutdown is done, deferred from then on; told of the close at most once. */
    ghost predicate LifeOk(c: HttpConnection)
      reads this`conns, this`deferred, this`closeCalls, c
    {
      && (c in conns <==> !c.flags.done) && (c in deferred <==> c.flags.done)
      && c.server == (if c.flags.done then null else this)
      && (c.flags.done ==> c.prev == null && c.next == null)
      && (c.flags.pending ==> !c.flags.done) && (c.flags.pending || c.flags.done ==> c.flags.closing)
      && (c in closeCalls <==> c.flags.notified)
    }

    ghost predicate Valid()
      reads this`conns, this`all, this`connsHead, this`deferred, this`closeCalls, all
    {
      && ListOk() && (forall c :: c in all ==> LifeOk(c))
      && NoRepeats(deferred) && NoRepeats(closeCalls)
      && (forall c :: c in deferred ==> c in all) && (forall c :: c in closeCalls ==> c in all)
    }

    /** A new connection goes to the head of the list. */
    method Accept() returns (c: HttpConnection)
      requires Valid()
      modifies this`connsHead, this`conns, this`all, all`prev
      ensures Valid() && fresh(c) && all == old(all) + {c} && conns == [c] + old(conns)
      ensures deferred == old(deferred) && closeCalls == old(closeCalls)
      ensures forall x :: x in old(all) ==> x.flags == old(x.flags)
      ensures shuttingDown == old(shuttingDown) && listening == old(listening)
    {
      c := new HttpConnection(this);
      NoRepeatsCons(conns, c);
      ghost var was := conns;
      c.next := connsHead;
      if connsHead != null {
        connsHead.prev := c;
      }
      connsHead := c;
      conns := [c] + conns;
      all := all + {c};
      forall i: int ensures LinkedAt(i) {
        assert old(LinkedAt(i - 1));
        if 1 <= i < |conns| {
          assert conns[i] == was[i - 1];
          assert DifferAt(was, 0, i - 1);
        }
      }
    }

    /**
     on_accept_cb: during a shutdown only the listener is taken down; otherwise every waiting client is accepted
     that the backend takes on.
     */
    method OnAccept(listenerOk: bool, clients: seq<bool>) returns (ghost accepted: seq<HttpConnection>)
      requires Valid() && listening
      modifies this`connsHead, this`conns, this`all, this`listening, this`timer, this`running, all`prev
      ensures Valid() && fresh(accepted) && conns == accepted + old(conns) && all == old(all) + Members(accepted)
      ensures deferred == old(deferred) && closeCalls == old(closeCalls) && shuttingDown == old(shuttingDown)
      ensures forall x :: x in old(all) ==> x.flags == old(x.flags)
      ensures |accepted| == if shuttingDown then 0 else Taken(clients)
      ensures listening == !(shuttingDown && listenerOk)
      ensures drainCount > 0 ==> running == old(running)
    {
      accepted := [];
      if shuttingDown {
        if listenerOk {
          listening := false;
          MaybeFinish();
        }
        return;
      }
      accepted := AcceptAll(clients);
    }

    /** The accept loop: clients[i] tells whether the i-th client can be set up. */
    method AcceptAll(clients: seq<bool>) returns (ghost accepted: seq<HttpConnection>)
      requires Valid() && listening
      modifies this`connsHead, this`conns, this`all, all`prev
      ensures Valid() && fresh(accepted) && conns == accepted + old(conns) && all == old(all) + Members(accepted)
      ensures deferred == old(deferred) && closeCalls == old(closeCalls) && shuttingDown == old(shuttingDown) && listening
      ensures forall x :: x in old(all) ==> x.flags == old(x.flags)
      ensures |accepted| == Taken(clients)
    {
      accepted := [];
      assert clients[..0] == [];
      for i := 0 to |clients|
        invariant Valid() && fresh(accepted) && conns == accepted + old(conns) && all == old(all) + Members(accepted)
        invariant deferred == old(deferred) && closeCalls == old(closeCalls) && shuttingDown == old(shuttingDown) && listening
        invariant forall x :: x in old(all) ==> x.flags == old(x.flags)
        invariant |accepted| == Taken(clients[..i])
      {
        TakenMore(clients, i);
        if clients[i] {
          accepted := AcceptOne(accepted, old(conns), old(all));
        }
      }
      assert clients[..|clients|] == clients;
    }

    /** One client more, in front of those accepted before it. */
    method AcceptOne(ghost accepted: seq<HttpConnection>, ghost before: seq<HttpConnection>, ghost known: set<HttpConnection>)
      returns (ghost accepted': seq<HttpConnection>)
      requires Valid() && conns == accepted + before && all == known + Members(accepted)
      modifies this`connsHead, this`conns, this`all, all`prev
      ensures Valid() && conns == accepted' + before && all == known + Members(accepted')
      ensures |accepted'| == |accepted| + 1 && fresh(accepted'[0]) && accepted'[1..] == accepted
      ensures deferred == old(deferred) && closeCalls == old(closeCalls) && shuttingDown == old(shuttingDown) && listening == old(listening)
      ensures forall x :: x in known ==> x.flags == old(x.flags)
    {
      var c := Accept();
      accepted' := [c] + accepted;
      InFront(c, accepted, before, known);
    }

    /** remove_conn_from_server. */
    method Unlink(c: HttpConnection, ghost k: nat)
      requires ListOk() && k < |conns| && conns[k] == c
      modifies this`connsHead, this`conns, all`prev, all`next, c`server
      ensures ListOk() && conns == old(conns)[..k] + old(conns)[k + 1..]
      ensures c.server == null && c.prev == null && c.next == null
      ensures forall x :: x in all && x !in old(conns) ==> x.prev == old(x.prev) && x.next == old(x.next)
    {
      NoRepeatsWithout(conns, k);
      ghost var was := conns;
      assert LinkedAt(k);
      if c.prev != null {
        c.prev.next := c.next;
      } else if connsHead == c {
        connsHead := c.next;
      }
      if c.next != null {
        c.next.prev := c.prev;
      }
      c.server, c.next, c.prev := null, null, null;
      conns := was[..k] + was[k + 1..];
      forall i: int ensures LinkedAt(i) {
        if 0 <= i < |conns| {
          var o := if i < k then i else i + 1;
          assert old(LinkedAt(o)) && conns[i] == was[o];
          Apart(was, o, k);
        }
      }
    }

    /** The connection leaves the list for good: flags, list, deferred release. */
    method Retire(c: HttpConnection, ghost k: nat)
      requires Valid() && k < |conns| && conns[k] == c && c.flags.closing
      modifies this`connsHead, this`conns, this`deferred, all`prev, all`next, c`server, c`flags
      ensures Valid() && conns == old(conns)[..k] + old(conns)[k + 1..] && deferred == old(deferred) + [c]
      ensures c.flags == old(c.flags).(done := true, pending := false)
    {
      NoRepeatsWithout(conns, k);
      NoRepeatsSnoc(deferred, c);
      c.flags := c.flags.(done := true, pending := false);
      Unlink(c, k);
      deferred := deferred + [c];
    }

    /** notify_ws_close on a linked connection. */
    method NotifyClose(c: HttpConnection)
      requires Valid() && c in all && !c.flags.done
      modifies this`closeCalls, c`flags
      ensures Valid() && c.flags == old(c.flags).(notified := old(c.flags.notified) || old(c.flags.ws))
      ensures closeCalls == old(closeCalls) + if old(c.flags.ws) && !old(c.flags.notified) then [c] else []
    {
      if c.flags.ws && !c.flags.notified {
        NoRepeatsSnoc(closeCalls, c);
        c.flags := c.flags.(notified := true);
        closeCalls := closeCalls + [c];
      }
    }

    /** Everything is gone: no listener, no connection, nothing being drained. */
    ghost predicate Drained()
      reads this
    {
      !listening && connsHead == null && drainCount == 0
    }

    /** HttpServer_maybe_finish_shutdown. */
    method MaybeFinish()
      modifies this`timer, this`running
      ensures if shuttingDown && Drained() then !timer && !running else timer == old(timer) && running == old(running)
    {
      if shuttingDown && !listening && connsHead == null && drainCount == 0 {
        timer := false;
        running := false;
      }
    }

    /** conn_shutdown, `ok` telling whether the backend lets go of the socket, or no longer knows it. */
    method Shutdown(c: HttpConnection, ok: bool)
      requires Valid() && c in all
      modifies this`connsHead, this`conns, this`deferred, this`closeCalls, this`timer, this`running
      modifies all`prev, all`next, c`server, c`flags
      ensures Valid()
      ensures var f := old(c.flags);
              if f.done || f.pending then
                c.flags == f && conns == old(conns) && deferred == old(deferred) && closeCalls == old(closeCalls)
              else
                && c.flags == f.(closing := true, notified := f.notified || f.ws, done := ok, pending := !ok)
                && closeCalls == old(closeCalls) + (if f.ws && !f.notified then [c] else [])
                && deferred == old(deferred) + (if ok then [c] else [])
                && (if ok then exists k :: LeavesAt(old(conns), conns, c, k) else conns == old(conns))
      ensures running != old(running) ==> !running && shuttingDown && Drained()
    {
      if c.flags.done || c.flags.pending {
        return;
      }
      c.flags := c.flags.(closing := true);
      NotifyClose(c);
      if ok {
        ghost var k: nat :| k < |conns| && conns[k] == c;
        Retire(c, k);
        assert LeavesAt(old(conns), conns, c, k);
        MaybeFinish();
      } else {
        c.flags := c.flags.(pending := true);
      }
    }

    /** HttpServer_sweep_closing: the listener, then every connection whose removal is pending. */
    method Sweep(listenerOk: bool, answers: HttpConnection -> bool)
      requires Valid()
      modifies this`listening, this`connsHead, this`conns, this`deferred, all`prev, all`next, all`server, all`flags
      ensures Valid() && listening == (old(listening) && !(shuttingDown && listenerOk))
      ensures forall c :: c in all ==> c.flags == Swept(old(c.flags), answers(c))
    {
      if listening && shuttingDown && listenerOk {
        listening := false;
      }
      ghost var still := listening;
      var curr := connsHead;
      ghost var k := 0;
      while curr != null
        invariant Valid() && 0 <= k <= |conns| && curr == At(k) && listening == still
        invariant forall c :: c in all ==> c.flags == if c in conns[k..] then old(c.flags) else Swept(old(c.flags), answers(c))
        decreases |conns| - k
      {
        assert LinkedAt(k);
        NoRepeatsTail(conns, k);
        var next := curr.next;
        if curr.flags.pending && !curr.flags.done && answers(curr) {
          ghost var was := conns;
          assert curr in all && LifeOk(curr);
          Retire(curr, k);
          assert conns[k..] == was[k + 1..];
        } else {
          k := k + 1;
        }
        curr := next;
      }
      assert conns[k..] == [];
    }

    /** One turn of the first loop of a late tick. */
    method ForceOne(c: HttpConnection, ok: bool)
      requires Valid() && c in all && !c.flags.done
      modifies this`connsHead, this`conns, this`deferred, this`closeCalls, this`timer, this`running
      modifies all`prev, all`next, c`server, c`flags
      ensures Valid() && c.flags == Forced(old(c.flags), ok)
      ensures c.flags.done == old(c.flags.done) ==> conns == old(conns)
      ensures c.flags.done != old(c.flags.done) ==> exists k :: LeavesAt(old(conns), conns, c, k)
      ensures running != old(running) ==> !running && shuttingDown && Drained()
    {
      c.flags := c.flags.(outLen := 0);
      Shutdown(c, ok);
    }

    /** The first loop of a late tick: unsent bytes are dropped and every connection is shut down. */
    method ForceAll(answers: HttpConnection -> bool)
      requires Valid()
      modifies this`connsHead, this`conns, this`deferred, this`closeCalls, this`timer, this`running
      modifies all`prev, all`next, all`server, all`flags
      ensures Valid()
      ensures forall c :: c in all ==> c.flags == Forced(old(c.flags), answers(c))
      ensures running != old(running) ==> !running && shuttingDown && Drained()
    {
      var curr := connsHead;
      ghost var k := 0;
      while curr != null
        invariant Valid() && 0 <= k <= |conns| && curr == At(k)
        invariant forall c :: c in all ==> c.flags == if c in conns[k..] then old(c.flags) else Forced(old(c.flags), answers(c))
        invariant running != old(running) ==> !running && shuttingDown && Drained()
        decreases |conns| - k
      {
        assert LinkedAt(k);
        NoRepeatsTail(conns, k);
        var next := curr.next;
        ghost var was := conns;
        assert curr in conns && curr in all;
        ForceOne(curr, answers(curr));
        if conns != was {
          LeftWhereItWas(was, conns, curr, k);
        } else {
          k := k + 1;
        }
        curr := next;
      }
      assert conns[k..] == [];
    }

    /** A tick past the deadline: each connection may be asked for twice, and the answers may differ. */
    method LateTick(listenerOk: bool, first: HttpConnection -> bool, second: HttpConnection -> bool)
      requires Valid()
      modifies this`listening, this`connsHead, this`conns, this`deferred, this`closeCalls, this`timer, this`running
      modifies all`prev, all`next, all`server, all`flags
      ensures Valid() && listening == (old(listening) && !(shuttingDown && listenerOk))
      ensures forall c :: c in all ==> c.flags == Swept(Forced(old(c.flags), first(c)), second(c))
      ensures connsHead == null <==> forall c :: c in all ==> LetGo(old(c.flags), first(c), second(c))
      ensures drainCount > 0 ==> running == old(running)
    {
      assert forall c :: c in all ==> LifeOk(c);
      ForceAll(first);
      Sweep(listenerOk, second);
      GoneIff();
    }

    /** on_shutdown_retry_tick at time `now`. */
    method Tick(now: nat, listenerOk: bool, first: HttpConnection -> bool, second: HttpConnection -> bool)
      requires Valid() && startedMs <= now
      modifies this`listening, this`connsHead, this`conns, this`deferred, this`closeCalls, this`timer, this`running
      modifies all`prev, all`next, all`server, all`flags
      ensures Valid()
      ensures forall c :: c in all ==>
                c.flags == if !shuttingDown then old(c.flags)
                           else if now - startedMs > 5000 then Swept(Forced(old(c.flags), first(c)), second(c))
                           else Swept(old(c.flags), second(c))
      ensures shuttingDown && now - startedMs > 5000 && listenerOk && drainCount == 0
              && (forall c :: c in all ==> LetGo(old(c.flags), first(c), second(c))) ==>
                !listening && connsHead == null && !running && !timer
      ensures drainCount > 0 ==> running == old(running)
    {
      if !shuttingDown {
        return;
      }
      if now - startedMs > 5000 {
        LateTick(listenerOk, first, second);
      } else {
        Sweep(listenerOk, second);
      }
      MaybeFinish();
    }

    /** The list is empty exactly when every connection is done. */
    lemma GoneIff()
      requires Valid()
      ensures connsHead == null <==> forall c :: c in all ==> c.flags.done
    {
      assert forall c :: c in all ==> LifeOk(c);
      EmptyOrNot(conns);
    }

    /** HttpConnection_append_send. */
    method Append(c: HttpConnection, n: nat)
      requires Valid() && c in all
      modifies c`flags
      ensures Valid() && c.flags == old(c.flags).(outLen := old(c.flags.outLen) + n)
    {
      c.flags := c.flags.(outLen := c.flags.outLen + n);
    }

    /** A handler answers 101: the connection becomes a WebSocket. */
    method Upgrade(c: HttpConnection)
      requires Valid() && c in all && !c.flags.closing
      modifies c`flags
      ensures Valid() && c.flags == old(c.flags).(ws := true)
    {
      c.flags := c.flags.(ws := true);
    }

    /** HttpConnection_flush: the send loop leaves some bytes or fails, and so may the change of interest. */
    method Flush(c: HttpConnection, open: bool, outcome: Outcome, ok: bool)
      requires Valid() && c in all && outcome.left <= c.flags.outLen
      modifies this`connsHead, this`conns, this`deferred, this`closeCalls, this`timer, this`running
      modifies all`prev, all`next, c`server, c`flags
      ensures Valid()
      ensures c.flags == if open then Flushed(old(c.flags), outcome, ok) else old(c.flags)
      ensures c.flags.done == old(c.flags.done) ==> conns == old(conns)
      ensures c.flags.done != old(c.flags.done) ==> exists k :: LeavesAt(old(conns), conns, c, k)
      ensures drainCount > 0 ==> running == old(running)
    {
      if !open {
        return;
      }
      c.flags := c.flags.(outLen := outcome.left);
      if c.server != null && (!outcome.good || (c.flags.closing && c.flags.outLen == 0 && !c.flags.pending)) {
        Shutdown(c, ok);
      }
    }

    /** HttpConnection_ws_close: a close frame of two bytes, then a flush. */
    method WsClose(c: HttpConnection, open: bool, outcome: Outcome, ok: bool)
      requires Valid() && c in all && outcome.left <= c.flags.outLen + 2
      modifies this`connsHead, this`conns, this`deferred, this`closeCalls, this`timer, this`running
      modifies all`prev, all`next, c`server, c`flags
      ensures Valid() && c.flags == WsClosed(old(c.flags), open, outcome, ok)
      ensures c.flags.done == old(c.flags.done) ==> conns == old(conns)
      ensures c.flags.done != old(c.flags.done) ==> exists k :: LeavesAt(old(conns), conns, c, k)
      ensures drainCount > 0 ==> running == old(running)
    {
      if !c.flags.ws || c.flags.closing {
        return;
      }
      c.flags := c.flags.(closing := true);
      if open {
        Append(c, 2);
        Flush(c, true, outcome, ok);
      }
    }

    /** HttpServer_drain_retain. */
    method DrainRetain()
      modifies this`drainCount
      ensures drainCount == old(drainCount) + 1
    {
      drainCount := drainCount + 1;
    }

    /** HttpServer_drain_release. */
    method DrainRelease(listenerOk: bool, answers: HttpConnection -> bool)
      requires Valid()
      modifies this`drainCount, this`listening, this`connsHead, this`conns, this`deferred, this`timer, this`running
      modifies all`prev, all`next, all`server, all`flags
      ensures Valid() && drainCount == if old(drainCount) > 0 then old(drainCount) - 1 else 0
      ensures forall c :: c in all ==> c.flags == if shuttingDown then Swept(old(c.flags), answers(c)) else old(c.flags)
      ensures drainCount > 0 ==> running == old(running)
    {
      if drainCount > 0 {
        drainCount := drainCount - 1;
      }
      if shuttingDown {
        Sweep(listenerOk, answers);
        MaybeFinish();
      }
    }

    /** Anything that can happen to the server. */
    method Happens(h: Happening)
      requires Valid() && (Concerns(h) ==> h.conn in all) && (h.Releases? ==> drainCount > 0)
      modifies this, all
      ensures Valid() && old(all) <= all && fresh(all - old(all))
      ensures drainCount == old(drainCount) + (if h.Retains? then 1 else if h.Releases? then -1 else 0)
      ensures drainCount > 0 ==> running == old(running)
    {
      match h {
        case Accepts(listenerOk, clients) =>
          if listening {
            var _ := OnAccept(listenerOk, clients);
          }
        case Ticks(elapsed, listenerOk, first, second) => Tick(startedMs + elapsed, listenerOk, first, second);
        case Flushes(c, open, outcome, ok) => Flush(c, open, AtMost(outcome, c.flags.outLen), ok);
        case Closes(c, open, outcome, ok) => WsClose(c, open, AtMost(outcome, c.flags.outLen + 2), ok);
        case Drops(c, ok) => Shutdown(c, ok);
        case Appends(c, n) => Append(c, n);
        case Upgrades(c) =>
          if !c.flags.closing {
            Upgrade(c);
          }
        case Begins(now, timerOk, listenerOk, answers, env) =>
          var _ := BeginShutdown(now, timerOk, listenerOk, answers, env);
        case Retains => DrainRetain();
        case Releases(listenerOk, answers) => DrainRelease(listenerOk, answers);
      }
    }

    /**
     A retain keeps the loop alive until it is released: whatever happens in between, with others retaining and
     releasing what they retained, no shutdown stops the loop.
     */
    method HoldOpen(hs: seq<Happening>)
      requires Valid() && running && Balanced(hs, 0)
      requires forall i :: 0 <= i < |hs| && Concerns(hs[i]) ==> hs[i].conn in all
      modifies this, all
      ensures Valid() && running && drainCount > old(drainCount)
    {
      ghost var before := drainCount;
      DrainRetain();
      ghost var others := 0;
      assert hs[0..] == hs;
      for i := 0 to |hs|
        invariant Valid() && running && old(all) <= all && fresh(all - old(all))
        invariant others >= 0 && drainCount == before + 1 + others && Balanced(hs[i..], others)
      {
        assert hs[i..][0] == hs[i] && hs[i..][1..] == hs[i + 1..];
        Happens(hs[i]);
        others := others + if hs[i].Retains? then 1 else if hs[i].Releases? then -1 else 0;
      }
    }

    /** One turn of the loop of HttpServer_begin_shutdown. */
    method CloseOne(c: HttpConnection, env: Env)
      requires Valid() && c in all && !c.flags.done
      modifies this`connsHead, this`conns, this`deferred, this`closeCalls, this`timer, this`running
      modifies all`prev, all`next, c`server, c`flags
      ensures Valid() && c.flags == Closed(old(c.flags), env)
      ensures c.flags.done == old(c.flags.done) ==> conns == old(conns)
      ensures c.flags.done != old(c.flags.done) ==> exists k :: LeavesAt(old(conns), conns, c, k)
      ensures drainCount > 0 ==> running == old(running)
    {
      if c.flags.ws {
        WsClose(c, env.open, AtMost(env.outcome, c.flags.outLen + 2), env.ok);
      } else {
        c.flags := c.flags.(closing := true);
        Shutdown(c, env.ok);
      }
    }

    method CloseAll(env: HttpConnection -> Env)
      requires Valid()
      modifies this`connsHead, this`conns, this`deferred, this`closeCalls, this`timer, this`running
      modifies all`prev, all`next, all`server, all`flags
      ensures Valid() && forall c :: c in all ==> c.flags == Closed(old(c.flags), env(c))
      ensures drainCount > 0 ==> running == old(running)
    {
      var curr := connsHead;
      ghost var k := 0;
      while curr != null
        invariant Valid() && 0 <= k <= |conns| && curr == At(k)
        invariant forall c :: c in all ==> c.flags == if c in conns[k..] then old(c.flags) else Closed(old(c.flags), env(c))
        invariant drainCount > 0 ==> running == old(running)
        decreases |conns| - k
      {
        assert LinkedAt(k);
        NoRepeatsTail(conns, k);
        var next := curr.next;
        ghost var was := conns;
        assert curr in conns && curr in all;
        CloseOne(curr, env(curr));
        if conns != was {
          LeftWhereItWas(was, conns, curr, k);
        } else {
          k := k + 1;
        }
        curr := next;
      }
      assert conns[k..] == [];
    }

    /** The listener and the pending connections first, then all that are left. */
    method CloseDown(listenerOk: bool, answers: HttpConnection -> bool, env: HttpConnection -> Env)
      requires Valid()
      modifies this`listening, this`connsHead, this`conns, this`deferred, this`closeCalls, this`timer, this`running
      modifies all`prev, all`next, all`server, all`flags
      ensures Valid() && forall c :: c in all ==> c.flags == Closed(Swept(old(c.flags), answers(c)), env(c))
      ensures drainCount > 0 ==> running == old(running)
    {
      Sweep(listenerOk, answers);
      CloseAll(env);
      MaybeFinish();
    }

    /** HttpServer_begin_shutdown; `timerOk` tells whether the retry timer could be created, added and started. */
    method BeginShutdown(now: nat, timerOk: bool, listenerOk: bool, answers: HttpConnection -> bool, env: HttpConnection -> Env) returns (rc: int)
      requires Valid()
      modifies this`shuttingDown, this`startedMs, this`listening, this`connsHead, this`conns, this`deferred, this`closeCalls, this`timer, this`running
      modifies all`prev, all`next, all`server, all`flags
      ensures Valid() && rc == (if old(shuttingDown) || timerOk then 0 else -1) && shuttingDown == (rc == 0)
      ensures if rc == 0 && !old(shuttingDown)
              then startedMs == now && forall c :: c in all ==> c.flags == Closed(Swept(old(c.flags), answers(c)), env(c))
              else conns == old(conns) && deferred == old(deferred) && closeCalls == old(closeCalls)
      ensures drainCount > 0 ==> running == old(running)
    {
      if shuttingDown {
        return 0;
      }
      shuttingDown := true;
      startedMs := now;
      timer := timerOk;
      if !timerOk {
        shuttingDown := false;
        return -1;
      }
      CloseDown(listenerOk, answers, env);
      return 0;
    }
  }

  datatype Happening =
    | Accepts(listenerOk: bool, clients: seq<bool>)
    | Ticks(elapsed: nat, listenerOk: bool, first: HttpConnection -> bool, second: HttpConnection -> bool)
    | Flushes(conn: HttpConnection, open: bool, outcome: Outcome, ok: bool)
    | Closes(conn: HttpConnection, open: bool, outcome: Outcome, ok: bool)
    | Drops(conn: HttpConnection, ok: bool)
    | Appends(conn: HttpConnection, n: nat)
    | Upgrades(conn: HttpConnection)
    | Begins(now: nat, timerOk: bool, listenerOk: bool, answers: HttpConnection -> bool, env: HttpConnection -> Env)
    | Retains
    | Releases(listenerOk: bool, answers: HttpConnection -> bool)

  /** It happens to one connection. */
  predicate Concerns(h: Happening) {
    h.Flushes? || h.Closes? || h.Drops? || h.Appends? || h.Upgrades?
  }

  /** Nobody releases more than has been retained, `n` retains being open at the start. */
  predicate Balanced(hs: seq<Happening>, n: nat) {
    if hs == [] then true
    else if hs[0].Retains? then Balanced(hs[1..], n + 1)
    else if hs[0].Releases? then n > 0 && Balanced(hs[1..], n - 1)
    else Balanced(hs[1..], n)
  }

  /** What a flush comes to: bytes left in the queue, and whether sending and the change of interest went well. */
  datatype Outcome = Outcome(left: nat, good: bool)

  /** What the environment answers about one connection. */
  datatype Env = Env(open: bool, outcome: Outcome, ok: bool)

  /** What a flush makes of a connection. */
  function Flushed(f: Flags, outcome: Outcome, ok: bool): Flags {
    var g := f.(outLen := outcome.left);
    if f.done || f.pending || (outcome.good && !(f.closing && g.outLen == 0)) then g
    else g.(closing := true, notified := f.notified || f.ws, done := ok, pending := !ok)
  }

  function AtMost(outcome: Outcome, n: nat): Outcome {
    if outcome.left > n then outcome.(left := n) else outcome
  }

  /** What HttpConnection_ws_close makes of a connection. */
  function WsClosed(f: Flags, open: bool, outcome: Outcome, ok: bool): Flags {
    if !f.ws || f.closing then f
    else if !open then f.(closing := true)
    else Flushed(f.(closing := true, outLen := f.outLen + 2), outcome, ok)
  }

  /** What the beginning of a shutdown makes of a connection. */
  function Closed(f: Flags, env: Env): Flags {
    if f.done then f
    else if f.ws then WsClosed(f, env.open, AtMost(env.outcome, f.outLen + 2), env.ok)
    else if f.pending then f.(closing := true)
    else f.(closing := true, done := env.ok, pending := !env.ok)
  }

  /** What a late tick makes of a connection before it sweeps. */
  function Forced(f: Flags, answer: bool): Flags {
    if f.done then f
    else if f.pending then f.(outLen := 0)
    else f.(outLen := 0, closing := true, notified := f.notified || f.ws, done := answer, pending := !answer)
  }

  /** The backend lets go of the connection at the first request of a late tick or at the second; a pending one gets only the second. */
  predicate LetGo(f: Flags, first: bool, second: bool) {
    f.done || second || (first && !f.pending)
  }

  lemma LeftWhereItWas(before: seq<HttpConnection>, after: seq<HttpConnection>, c: HttpConnection, k: nat)
    requires NoRepeats(before) && k < |before| && before[k] == c && exists i :: LeavesAt(before, after, c, i)
    ensures after == before[..k] + before[k + 1..] && after[k..] == before[k + 1..]
  {
    var i :| LeavesAt(before, after, c, i);
    assert DifferAt(before, i, k) && DifferAt(before, k, i);
  }

  /** What a sweep makes of a connection. */
  function Swept(f: Flags, answer: bool): Flags {
    if f.pending && !f.done && answer then f.(done := true, pending := false) else f
  }

  /** The connection is gone from the list, the others keep their order. */
  ghost predicate LeavesAt(before: seq<HttpConnection>, after: seq<HttpConnection>, c: HttpConnection, k: int) {
    0 <= k < |before| && before[k] == c && after == before[..k] + before[k + 1..]
  }
}
