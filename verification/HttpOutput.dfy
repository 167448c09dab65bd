/**
 The output queue of a connection in src/http_server.c: bytes appended to a growing buffer, sent in whatever
 portions the socket takes, and write interest registered only while something is left.
 */
module HttpOutput {
  import opened Common

  type bytes = seq<byte>

  /** What one call of send gives. */
  datatype Send = Sent(n: nat) | WouldBlock | Interrupted | Failed

  /** What the send loop has done: bytes sent, bytes left, and whether the connection is still good. */
  datatype Drain = Drain(sent: bytes, left: bytes, good: bool)

  /** The send loop over the queue; a socket that says no more would block. */
  function Drained(q: bytes, answers: seq<Send>): (r: Drain)
    decreases |answers|
  {
    if q == [] || answers == [] then Drain([], q, true)
    else match answers[0]
      case Sent(n) =>
        if n == 0 then Drain([], q, false)
        else if n >= |q| then Drain(q, [], true)
        else
          var d := Drained(q[n..], answers[1..]);
          Drain(q[..n] + d.sent, d.left, d.good)
      case WouldBlock => Drain([], q, true)
      case Interrupted => Drained(q, answers[1..])
      case Failed => Drain([], q, false)
  }

  // ---------------------------------------------------------------- how much is sent

  /** After these answers the loop calls send again, if bytes are left. */
  predicate Proceeds(a: Send) { a.Interrupted? || (a.Sent? && a.n > 0) }

  /** How many answers come before the first one that ends the loop. */
  function Leading(answers: seq<Send>): (k: nat)
    ensures k <= |answers| && (k < |answers| ==> !Proceeds(answers[k]))
    ensures forall i :: 0 <= i < k ==> Proceeds(answers[i])
  {
    if answers == [] || !Proceeds(answers[0]) then 0 else 1 + Leading(answers[1..])
  }

  /** The bytes that the calls of send reported. */
  function Total(answers: seq<Send>): nat {
    if answers == [] then 0 else (if answers[0].Sent? then answers[0].n else 0) + Total(answers[1..])
  }

  /** The socket takes as many bytes of `q` as its answers before that one add up to, or all of them. */
  function Share(q: bytes, answers: seq<Send>): (m: nat)
    ensures m <= |q|
  {
    var n := Total(answers[..Leading(answers)]);
    if n < |q| then n else |q|
  }

  /** An error, or a send of nothing, is what the loop ends with. */
  predicate Breaks(answers: seq<Send>) {
    var k := Leading(answers);
    k < |answers| && !answers[k].WouldBlock?
  }

  lemma ShareMore(answers: seq<Send>)
    requires answers != [] && Proceeds(answers[0])
    ensures Leading(answers) == 1 + Leading(answers[1..]) && Breaks(answers) == Breaks(answers[1..])
    ensures Total(answers[..Leading(answers)]) == (if answers[0].Sent? then answers[0].n else 0) + Total(answers[1..][..Leading(answers[1..])])
  {
    var k := Leading(answers[1..]);
    assert answers[..k + 1][1..] == answers[1..][..k];
  }

  lemma Slices(q: bytes, n: nat, m: nat)
    requires n <= m <= |q|
    ensures q[..n] + q[n..][..m - n] == q[..m] && q[n..][m - n..] == q[m..]
  {
  }

  /** Exactly that many bytes go out, from the front; the connection is bad iff the loop broke with bytes left. */
  lemma {:induction false} DrainIsShare(q: bytes, answers: seq<Send>)
    ensures var m := Share(q, answers); Drained(q, answers) == Drain(q[..m], q[m..], m == |q| || !Breaks(answers))
    decreases |answers|
  {
    if q != [] && answers != [] && Proceeds(answers[0]) {
      ShareMore(answers);
      if answers[0].Interrupted? {
        DrainIsShare(q, answers[1..]);
      } else if answers[0].n < |q| {
        var n, m := answers[0].n, Share(q, answers);
        DrainIsShare(q[n..], answers[1..]);
        Slices(q, n, m);
      }
    }
  }

  /**
   Nothing is lost, repeated or reordered, whatever the socket takes: what it reports to have taken goes out, and the
   rest is left.
   */
  lemma DrainConserves(q: bytes, answers: seq<Send>)
    ensures var d := Drained(q, answers);
            && d.sent + d.left == q && |d.sent| == Share(q, answers)
            && (d.good <==> d.left == [] || !Breaks(answers))
  {
    DrainIsShare(q, answers);
  }

  /** Two flushes in a row send what one would have sent with both lists of answers, when the first one stops for want of answers. */
  lemma {:induction false} DrainResumes(q: bytes, a: seq<Send>, b: seq<Send>)
    requires Drained(q, a).good && forall i :: 0 <= i < |a| ==> !a[i].WouldBlock?
    ensures var d, e := Drained(q, a), Drained(Drained(q, a).left, b);
            Drained(q, a + b) == Drain(d.sent + e.sent, e.left, e.good)
    decreases |a|
  {
    if a == [] {
      assert a + b == b && [] + Drained(q, b).sent == Drained(q, b).sent;
    } else if q == [] {
      assert Drained(q, a).sent + Drained(q, b).sent == [];
    } else {
      assert (a + b)[0] == a[0] && (a + b)[1..] == a[1..] + b;
      match a[0]
      case Sent(n) =>
        if n >= |q| {
          assert q + [] == q;
        } else {
          DrainResumes(q[n..], a[1..], b);
          var d := Drained(q[n..], a[1..]);
          var e := Drained(d.left, b);
          assert q[..n] + (d.sent + e.sent) == q[..n] + d.sent + e.sent;
        }
      case Interrupted => DrainResumes(q, a[1..], b);
      case _ =>
    }
  }

  /** The same with bytes sent before. */
  function After(s: bytes, d: Drain): Drain { Drain(s + d.sent, d.left, d.good) }

  /** Which events the backend watches for on the socket. */
  datatype Interest = ReadOnly | ReadWrite | WriteOnly

  /** With `n` bytes left, the backend has to watch for something else than before. */
  predicate Changes(interest: Interest, closing: bool, n: nat) {
    if n > 0 then (if closing then interest != WriteOnly else interest == ReadOnly) else interest != ReadOnly && !closing
  }

  function NextInterest(closing: bool, n: nat): Interest {
    if n == 0 then ReadOnly else if closing then WriteOnly else ReadWrite
  }

  /** What a flush does to the queue and to the interest, and whether all went well. */
  datatype Flow = Flow(sent: bytes, left: bytes, interest: Interest, good: bool)

  /** `linked` tells whether the connection still belongs to a server; the interest of one that does not stays. */
  function Flowed(q: bytes, interest: Interest, closing: bool, linked: bool, answers: seq<Send>, modifyOk: bool): Flow {
    var d := Drained(q, answers);
    if !d.good || !linked || !Changes(interest, closing, |d.left|) then Flow(d.sent, d.left, interest, d.good)
    else Flow(d.sent, d.left, if modifyOk then NextInterest(closing, |d.left|) else interest, modifyOk)
  }

  /**
   What a flush wants the backend to watch: writing while bytes are left, and nothing but writing once the connection is
   closing; reading only when all is sent, unless it is closing and about to go.
   */
  function Wanted(interest: Interest, closing: bool, left: bytes): Interest {
    match interest
    case ReadOnly => if left == [] then ReadOnly else if closing then WriteOnly else ReadWrite
    case ReadWrite => if closing then (if left == [] then ReadWrite else WriteOnly) else if left == [] then ReadOnly else ReadWrite
    case WriteOnly => if left == [] && !closing then ReadOnly else WriteOnly
  }

  /** A flush of a linked connection that sent without error gets what it wants, or fails because the backend refused. */
  lemma FlowWants(q: bytes, interest: Interest, closing: bool, linked: bool, answers: seq<Send>, modifyOk: bool)
    ensures var d, r := Drained(q, answers), Flowed(q, interest, closing, linked, answers, modifyOk);
            && r.sent == d.sent && r.left == d.left
            && if d.good && linked && Wanted(interest, closing, d.left) != interest
               then (if modifyOk then r.interest == Wanted(interest, closing, d.left) && r.good else r.interest == interest && !r.good)
               else r.interest == interest && r.good == d.good
  {
  }

  class OutQueue {
    var outBuf: array<byte>
    var outLen: nat
    var isClosing: bool
    var isWriteRegistered: bool
    var closeWriteOnlyRegistered: bool
    var interest: Interest             // as the backend has it
    ghost var sent: bytes              // all bytes the socket has taken
    ghost var appended: bytes          // all bytes ever appended

    ghost predicate Valid()
      reads this, outBuf
    {
      && outLen <= outBuf.Length && sent + outBuf[..outLen] == appended
      && (isWriteRegistered <==> interest != ReadOnly)
      && (closeWriteOnlyRegistered <==> interest == WriteOnly)
      && (closeWriteOnlyRegistered ==> isClosing)
    }

    constructor ()
      ensures Valid() && fresh(outBuf) && sent == [] && appended == [] && !isClosing && interest == ReadOnly
    {
      outBuf := new byte[0];
      outLen, isClosing, isWriteRegistered, closeWriteOnlyRegistered, interest := 0, false, false, false, ReadOnly;
      sent, appended := [], [];
    }

    /** append_out_buf. */
    method Append(data: bytes)
      requires Valid()
      modifies this`outBuf, this`outLen, this`appended, outBuf
      ensures Valid() && (outBuf == old(outBuf) || fresh(outBuf)) && appended == old(appended) + data && outLen == old(outLen) + |data|
    {
      if data == [] {
        return;
      }
      var required := outLen + |data|;
      if required > outBuf.Length {
        Enlarge(required);
      }
      ghost var was := outBuf[..outLen];
      forall i | 0 <= i < |data| { outBuf[outLen + i] := data[i]; }
      outLen := required;
      assert outBuf[..outLen] == was + data;
      appended := appended + data;
    }

    /** Doubling from the old capacity, or from 4096. */
    method Enlarge(required: nat)
      requires Valid()
      modifies this`outBuf
      ensures Valid() && fresh(outBuf) && required <= outBuf.Length && outBuf[..outLen] == old(outBuf[..outLen])
    {
      var cap := if outBuf.Length == 0 then 4096 else outBuf.Length;
      while cap < required
        invariant cap > 0 && cap >= outBuf.Length
        decreases required - cap
      {
        cap := cap * 2;
      }
      var bigger := new byte[cap];
      forall i | 0 <= i < outLen { bigger[i] := outBuf[i]; }
      assert bigger[..outLen] == outBuf[..outLen];
      outBuf := bigger;
    }

    /** The first `n` bytes are gone; the rest moves to the front. */
    method DropFront(n: nat)
      requires Valid() && n <= outLen
      modifies this`outLen, this`sent, outBuf
      ensures Valid() && outBuf[..outLen] == old(outBuf[n..outLen]) && sent == old(sent) + old(outBuf[..n])
    {
      ghost var front, back := outBuf[..n], outBuf[n..outLen];
      assert outBuf[..outLen] == front + back;
      Regroup(sent, front, back);
      MoveDown(outBuf, n, outLen);
      outLen := outLen - n;
      sent := sent + front;
    }

    /** The send loop of HttpConnection_flush. */
    method SendAll(answers: seq<Send>) returns (good: bool)
      requires Valid()
      modifies this`outLen, this`sent, outBuf
      ensures Valid()
      ensures var d := Drained(old(outBuf[..outLen]), answers);
              good == d.good && outBuf[..outLen] == d.left && sent == old(sent) + d.sent
      ensures var q := old(outBuf[..outLen]); var m := Share(q, answers);
              sent == old(sent) + q[..m] && outBuf[..outLen] == q[m..] && (good <==> m == |q| || !Breaks(answers))
    {
      DrainIsShare(outBuf[..outLen], answers);
      ghost var goal := After(sent, Drained(outBuf[..outLen], answers));
      var i := 0;
      assert answers[0..] == answers;
      while outLen > 0 && i < |answers|
        invariant Valid() && 0 <= i <= |answers| && goal == After(sent, Drained(outBuf[..outLen], answers[i..]))
        decreases |answers| - i
      {
        assert answers[i..] == [answers[i]] + answers[i + 1..];
        var done;
        done, good := SendTurn(answers[i], answers[i + 1..], goal);
        if done {
          return;
        }
        i := i + 1;
      }
      assert sent + [] == sent;
      return true;
    }

    /** One call of send and what follows from its answer. */
    method SendTurn(a: Send, ghost rest: seq<Send>, ghost goal: Drain) returns (done: bool, good: bool)
      requires Valid() && outLen > 0 && goal == After(sent, Drained(outBuf[..outLen], [a] + rest))
      modifies this`outLen, this`sent, outBuf
      ensures Valid()
      ensures goal == if done then Drain(sent, outBuf[..outLen], good) else After(sent, Drained(outBuf[..outLen], rest))
    {
      ghost var q, was := outBuf[..outLen], sent;
      assert ([a] + rest)[1..] == rest && sent + [] == sent;
      match a {
        case Sent(n) =>
          if n == 0 {
            return true, false;
          }
          if n < outLen {
            DropFront(n);
            assert outBuf[..outLen] == q[n..];
            Regroup(was, q[..n], Drained(q[n..], rest).sent);
          } else {
            DropFront(outLen);
            assert outBuf[..outLen] == [] && q[..|q|] == q;
            return true, true;
          }
        case WouldBlock =>
          return true, true;
        case Interrupted =>
        case Failed =>
          return true, false;
      }
      return false, true;
    }

    /** The connection is to be closed once its bytes are out; what is queued stays queued. */
    method MarkClosing()
      requires Valid()
      modifies this`isClosing
      ensures Valid() && isClosing && appended == old(appended) && sent == old(sent)
    {
      isClosing := true;
    }

    /**
     HttpConnection_flush of a connection that is `linked` or not and whose removal is `pending` or not; `keep` is
     false when the connection has to be shut down.
     */
    method Flush(answers: seq<Send>, modifyOk: bool, linked: bool, pending: bool) returns (keep: bool, good: bool)
      requires Valid()
      modifies this`outLen, this`sent, this`isWriteRegistered, this`closeWriteOnlyRegistered, this`interest, outBuf
      ensures Valid()
      ensures Flow(sent, outBuf[..outLen], interest, good) ==
                var r := Flowed(old(outBuf[..outLen]), old(interest), isClosing, linked, answers, modifyOk); r.(sent := old(sent) + r.sent)
      ensures keep <==> !linked || (good && !(isClosing && outLen == 0 && !pending))
      ensures keep && linked && !isClosing ==> (interest == if outLen > 0 then ReadWrite else ReadOnly)
      ensures keep && linked && isClosing && !pending ==> interest == WriteOnly && outLen > 0
    {
      good := SendAll(answers);
      if !good {
        return !linked, false;
      }
      if linked {
        good := Register(modifyOk);
        if !good {
          return false, false;
        }
      }
      keep := !linked || !(isClosing && outLen == 0 && !pending);
    }

    /** Write interest follows the queue. */
    method Register(modifyOk: bool) returns (ok: bool)
      requires Valid()
      modifies this`isWriteRegistered, this`closeWriteOnlyRegistered, this`interest
      ensures Valid() && (ok <==> (old(Changes(interest, isClosing, outLen)) ==> modifyOk))
      ensures interest == if old(Changes(interest, isClosing, outLen)) && modifyOk then NextInterest(isClosing, outLen) else old(interest)
    {
      if outLen > 0 {
        if isClosing {
          if !closeWriteOnlyRegistered {
            if !modifyOk {
              return false;
            }
            interest, isWriteRegistered, closeWriteOnlyRegistered := WriteOnly, true, true;
          }
        } else if !isWriteRegistered {
          if !modifyOk {
            return false;
          }
          interest, isWriteRegistered := ReadWrite, true;
        }
      } else if isWriteRegistered && !isClosing {
        if !modifyOk {
          return false;
        }
        interest, isWriteRegistered, closeWriteOnlyRegistered := ReadOnly, false, false;
      }
      ok := true;
    }
  }

  /** memmove of `a[n..end]` to the front. */
  method MoveDown(a: array<byte>, n: nat, end: nat)
    requires n <= end <= a.Length
    modifies a
    ensures a[..end - n] == old(a[n..end])
  {
    forall i | 0 <= i < end - n { a[i] := a[n + i]; }
  }

  lemma Regroup(a: bytes, b: bytes, c: bytes)
    ensures a + (b + c) == a + b + c
  {
  }
}
