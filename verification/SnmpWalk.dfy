/**
 The subtree walk of src/coresnmp.c against any agent: what it collects lies under the root and only grows, and
 it ends.  Against an agent that answers from a fixed table it collects exactly the subtree.
 */
module SnmpWalk {
  import opened Common
  import opened Asn1
  import opened Oid

  /** Identifiers of at most 128 arcs; a text of fewer than 256 characters names no more. */
  type Name = x: seq<Arc> | 0 < |x| <= 128 witness NAME_ZERO

  const NAME_ZERO: seq<Arc> := [0]

  const SNMP_OID_STR_CAP: nat := 256

  // ---------------------------------------------------------------- the order of identifiers

  /** Component by component; a proper prefix comes first. */
  function Lex(x: seq<Arc>, y: seq<Arc>): (r: int)
    ensures -1 <= r <= 1
  {
    if x == [] then (if y == [] then 0 else -1)
    else if y == [] then 1
    else if x[0] < y[0] then -1
    else if x[0] > y[0] then 1
    else Lex(x[1..], y[1..])
  }

  lemma {:induction false} LexAntisymmetric(x: seq<Arc>, y: seq<Arc>)
    ensures Lex(x, y) == -Lex(y, x) && (Lex(x, y) == 0 <==> x == y)
    decreases |x|
  {
    if x != [] && y != [] {
      LexAntisymmetric(x[1..], y[1..]);
      assert x == [x[0]] + x[1..] && y == [y[0]] + y[1..];
    }
  }

  lemma {:induction false} LexTransitive(x: seq<Arc>, y: seq<Arc>, z: seq<Arc>)
    requires Lex(x, y) <= 0 && Lex(y, z) <= 0
    ensures Lex(x, z) <= 0 && (Lex(x, y) < 0 || Lex(y, z) < 0 ==> Lex(x, z) < 0)
    decreases |x|
  {
    if x != [] && y != [] && z != [] && x[0] == y[0] == z[0] { LexTransitive(x[1..], y[1..], z[1..]); }
  }

  /** Oids under a root are not interrupted: what lies between the root and one of them is under the root too. */
  lemma {:induction false} UnderInterval(root: seq<Arc>, y: seq<Arc>, z: seq<Arc>)
    requires Lex(root, y) <= 0 && Lex(y, z) <= 0 && root <= z
    ensures root <= y
    decreases |root|
  {
    if root != [] {
      assert z[0] == root[0] && y != [];
      assert y[0] == root[0];
      assert root[1..] <= z[1..];
      UnderInterval(root[1..], y[1..], z[1..]);
      assert root == [root[0]] + root[1..] && y == [y[0]] + y[1..];
    }
  }

  lemma {:induction false} PrefixComesFirst(root: seq<Arc>, x: seq<Arc>)
    requires root <= x
    ensures Lex(root, x) <= 0
    decreases |root|
  {
    if root != [] {
      assert root[0] == x[0] && root[1..] <= x[1..];
      PrefixComesFirst(root[1..], x[1..]);
    }
  }

  // ---------------------------------------------------------------- on text

  /** is_prefix_match. */
  predicate IsPrefixMatch(root: string, current: string) {
    |root| <= |current| && root == current[..|root|] && (|current| == |root| || current[|root|] == '.')
  }

  /** Text of a longer identifier. */
  lemma Reassociate(a: string, b: string, c: string)
    ensures a + ("." + (b + c)) == a + ("." + b) + c
  {
  }

  lemma {:induction false} DottedSplit(x: seq<Arc>, y: seq<Arc>)
    requires x != []
    ensures Dotted(x + y) == Dotted(x) + if y == [] then "" else "." + Dotted(y)
    decreases |x|
  {
    if y == [] {
      assert x + y == x;
    } else {
      assert (x + y)[0] == x[0] && (x + y)[1..] == x[1..] + y;
      if |x| == 1 {
        assert x[1..] + y == y;
      } else {
        DottedSplit(x[1..], y);
        Reassociate(Decimal(x[0]), Dotted(x[1..]), "." + Dotted(y));
      }
    }
  }

  /** The first component of a text and what comes after it. */
  lemma FirstComponent(x: seq<Arc>)
    requires x != []
    ensures var t, e := Dotted(x), |Decimal(x[0])|;
            && e <= |t| && t[..e] == Decimal(x[0]) && IsDigit(t[0])
            && NumberEnd(t, 0) == e && NumberValue(t, 0, e) == x[0]
            && (|x| == 1 ==> e == |t|) && (|x| > 1 ==> e < |t| && t[e] == '.' && t[e + 1..] == Dotted(x[1..]))
  {
    var t := Dotted(x);
    assert t[0..] == t;
    DottedParts(t, 0, x);
    assert t[0..|Decimal(x[0])|] == t[..|Decimal(x[0])|];
    NumberRead(t, 0, x[0]);
  }

  /** The text test is the component test. */
  lemma {:induction false} PrefixMatchIsPrefix(r: seq<Arc>, c: seq<Arc>)
    requires r != [] && c != []
    ensures IsPrefixMatch(Dotted(r), Dotted(c)) <==> r <= c
    decreases |r|
  {
    if r <= c {
      DottedSplit(r, c[|r|..]);
      assert r + c[|r|..] == c;
    } else if IsPrefixMatch(Dotted(r), Dotted(c)) {
      PrefixMatchMeans(r, c);
    }
  }

  /** A matching prefix goes on matching behind the first `e` characters and a separator. */
  lemma MatchBehind(s: string, t: string, e: nat)
    requires IsPrefixMatch(s, t) && e < |s|
    ensures e < |t| && t[e] == s[e] && IsPrefixMatch(s[e + 1..], t[e + 1..])
  {
    assert s[e] == t[..|s|][e] == t[e];
    assert s[e + 1..] == t[..|s|][e + 1..] == t[e + 1..][..|s| - e - 1];
  }

  lemma PrefixCons(r: seq<Arc>, c: seq<Arc>)
    requires r != [] && c != [] && r[0] == c[0] && r[1..] <= c[1..]
    ensures r <= c
  {
    assert r == [r[0]] + r[1..] && c == [c[0]] + c[1..];
  }

  lemma {:induction false} PrefixMatchMeans(r: seq<Arc>, c: seq<Arc>)
    requires r != [] && c != [] && IsPrefixMatch(Dotted(r), Dotted(c))
    ensures r <= c
    decreases |r|
  {
    SameFirstArc(r, c);
    if |r| > 1 {
      FirstComponent(r);
      FirstComponent(c);
      MatchBehind(Dotted(r), Dotted(c), |Decimal(r[0])|);
      PrefixMatchMeans(r[1..], c[1..]);
      PrefixCons(r, c);
    } else {
      assert r == [r[0]];
    }
  }

  /** The number at the start of a text is the one at the start of a matching prefix. */
  lemma NumberOfPrefix(s: string, t: string, n: nat)
    requires IsPrefixMatch(s, t) && |Decimal(n)| <= |s| && s[..|Decimal(n)|] == Decimal(n)
    requires |Decimal(n)| < |s| ==> s[|Decimal(n)|] == '.'
    ensures NumberEnd(t, 0) == |Decimal(n)| && NumberValue(t, 0, |Decimal(n)|) == n
    ensures |Decimal(n)| < |s| ==> |Decimal(n)| < |t|
  {
    var e := |Decimal(n)|;
    assert t[0..e] == s[..e];
    if e < |s| { assert t[e] == s[e]; }
    NumberRead(t, 0, n);
  }

  lemma SameFirstArc(r: seq<Arc>, c: seq<Arc>)
    requires r != [] && c != [] && IsPrefixMatch(Dotted(r), Dotted(c))
    ensures r[0] == c[0] && (|r| > 1 ==> |c| > 1)
  {
    FirstComponent(r);
    FirstComponent(c);
    NumberOfPrefix(Dotted(r), Dotted(c), r[0]);
  }

  /** oid_compare_numeric on the texts of two identifiers. */
  method CompareNumeric(oid1: string, oid2: string, ghost x: seq<Arc>, ghost y: seq<Arc>) returns (r: int)
    requires x != [] && y != [] && oid1 == Dotted(x) && oid2 == Dotted(y)
    ensures r == Lex(x, y)
  {
    var a, b := oid1, oid2;
    ghost var u, v := x, y;
    while a != "" && b != ""
      invariant a == Dotted(u) && b == Dotted(v) && Lex(u, v) == Lex(x, y)
      decreases |a|
    {
      FirstComponent(u);
      FirstComponent(v);
      var e1, e2 := NumberEnd(a, 0), NumberEnd(b, 0);
      var v1, v2 := NumberValue(a, 0, e1), NumberValue(b, 0, e2);
      if v1 != v2 {
        return if v1 < v2 then -1 else 1;
      }
      a := if e1 < |a| && a[e1] == '.' then a[e1 + 1..] else a[e1..];
      b := if e2 < |b| && b[e2] == '.' then b[e2 + 1..] else b[e2..];
      u, v := u[1..], v[1..];
    }
    NonEmptyText(u);
    NonEmptyText(v);
    r := if a == "" && b == "" then 0 else if a != "" then 1 else -1;
  }

  lemma NonEmptyText(x: seq<Arc>)
    ensures Dotted(x) == "" <==> x == []
  {
  }

  // ---------------------------------------------------------------- the walk

  const END_OF_MIB_VIEW: int := 0x82

  datatype VarBind = VarBind(tag: int, oid: Name)

  /** What one GETBULK request gives: an error, or a list that is never empty. */
  datatype Reply = Failed(code: int) | Bulk(vbs: seq<VarBind>)

  /** Any agent: its answer may depend on the number of the request as well as on what is asked for. */
  type Agent = (nat, Name) -> Reply

  datatype Code = OK | Invalid | Net(code: int)
  datatype Result = Result(code: Code, out: seq<VarBind>)
  datatype Scan = Stop(result: Result) | More(last: Name, out: seq<VarBind>)

  /** The inner loop from entry `i` of a reply on. */
  function ScanFrom(vbs: seq<VarBind>, i: nat, root: Name, last: Name, out: seq<VarBind>, keep: bool): Scan
    requires i <= |vbs|
    decreases |vbs| - i
  {
    if i == |vbs| then (if keep then More(last, out) else Stop(Result(OK, out)))
    else if vbs[i].tag == END_OF_MIB_VIEW || !(root <= vbs[i].oid) then Stop(Result(OK, out))
    else if Lex(vbs[i].oid, last) <= 0 then Stop(Result(Invalid, out))
    else ScanFrom(vbs, i + 1, root, vbs[i].oid, out + [vbs[i]], true)
  }

  /** The outer loop from request number `round` on; `n` bounds the number of arcs of a name. */
  function Walk(agent: Agent, root: Name, round: nat, last: Name, out: seq<VarBind>, ghost n: nat): Result
    requires n >= 128
    decreases Pow(n) - Rank(last, n)
  {
    var reply := agent(round, last);
    if reply.Failed? then Result(Net(reply.code), out) else
      var s := ScanFrom(reply.vbs, 0, root, last, out, false);
      if s.Stop? then s.result else
        ScanAdvances(reply.vbs, 0, root, last, out, false, n);
        Walk(agent, root, round + 1, s.last, s.out, n)
  }

  // ---------------------------------------------------------------- it ends

  const BASE: nat := 0x1_0000_0001

  function Pow(n: nat): nat { if n == 0 then 1 else BASE * Pow(n - 1) }

  /** The place of an identifier of at most `n` arcs in their order: its arcs as digits, a missing one being zero. */
  function Rank(x: seq<Arc>, n: nat): (r: nat)
    ensures r < Pow(n)
    decreases n
  {
    if n == 0 then 0 else
      var d := if x == [] then 0 else x[0] as int + 1;
      var rest := Rank(if x == [] then [] else x[1..], n - 1);
      DigitBound(d, rest, Pow(n - 1));
      d * Pow(n - 1) + rest
  }

  lemma {:induction false} NotNegative(a: nat, b: nat)
    ensures a * b >= 0
  {
    if a > 0 {
      NotNegative(a - 1, b);
      assert a * b == (a - 1) * b + b;
    }
  }

  lemma DigitBound(d: nat, rest: nat, p: nat)
    requires d < BASE && rest < p
    ensures d * p + rest < BASE * p
  {
    NotNegative(BASE - d - 1, p);
    assert BASE * p == d * p + p + (BASE - d - 1) * p;
  }

  lemma DigitOrder(d: nat, a: nat, e: nat, b: nat, p: nat)
    requires d < e && a < p
    ensures d * p + a < e * p + b
  {
    assert (d + 1) * p <= e * p;
  }

  /** A later identifier has a higher rank. */
  lemma {:induction false} RankGrows(x: seq<Arc>, y: seq<Arc>, n: nat)
    requires Lex(x, y) < 0 && |x| <= n && |y| <= n
    ensures Rank(x, n) < Rank(y, n)
    decreases n
  {
    var x', y' := if x == [] then [] else x[1..], if y == [] then [] else y[1..];
    var d, e := if x == [] then 0 else x[0] as int + 1, if y == [] then 0 else y[0] as int + 1;
    if d == e {
      RankGrows(x', y', n - 1);
    } else {
      DigitOrder(d, Rank(x', n - 1), e, Rank(y', n - 1), Pow(n - 1));
    }
  }

  lemma LaterRank(x: Name, y: Name, n: nat)
    requires Lex(x, y) < 0 && n >= 128
    ensures Rank(x, n) < Rank(y, n)
  {
    RankGrows(x, y, n);
  }

  /** A reply that makes the walk go on takes it to a later identifier. */
  lemma {:induction false} ScanAdvances(vbs: seq<VarBind>, i: nat, root: Name, last: Name, out: seq<VarBind>, keep: bool, n: nat)
    requires i <= |vbs| && n >= 128
    ensures var s := ScanFrom(vbs, i, root, last, out, keep);
            s.More? && !keep ==> Rank(last, n) < Rank(s.last, n)
    ensures var s := ScanFrom(vbs, i, root, last, out, keep);
            s.More? ==> Rank(last, n) <= Rank(s.last, n)
    decreases |vbs| - i
  {
    if i < |vbs| && root <= vbs[i].oid && Lex(vbs[i].oid, last) > 0 {
      LexAntisymmetric(last, vbs[i].oid);
      LaterRank(last, vbs[i].oid, n);
      ScanAdvances(vbs, i + 1, root, vbs[i].oid, out + [vbs[i]], true, n);
    }
  }

  // ---------------------------------------------------------------- what it collects

  /** Every entry is under the root and later than the one before it, the first later than `from`. */
  ghost predicate Climbs(root: Name, from: Name, out: seq<VarBind>) {
    forall i: int :: ClimbsAt(root, from, out, i)
  }

  ghost predicate ClimbsAt(root: Name, from: Name, out: seq<VarBind>, i: int) {
    0 <= i < |out| ==> root <= out[i].oid && Lex(if i == 0 then from else out[i - 1].oid, out[i].oid) < 0
  }

  ghost function LastOf(from: Name, out: seq<VarBind>): Name {
    if out == [] then from else out[|out| - 1].oid
  }

  lemma ClimbsOn(root: Name, from: Name, out: seq<VarBind>, vb: VarBind)
    requires Climbs(root, from, out) && root <= vb.oid && Lex(LastOf(from, out), vb.oid) < 0
    ensures Climbs(root, from, out + [vb])
  {
    forall i: int ensures ClimbsAt(root, from, out + [vb], i) { assert ClimbsAt(root, from, out, i); }
  }

  lemma {:induction false} ScanClimbs(vbs: seq<VarBind>, i: nat, root: Name, last: Name, out: seq<VarBind>, keep: bool)
    requires i <= |vbs| && Climbs(root, root, out) && last == LastOf(root, out)
    ensures var s := ScanFrom(vbs, i, root, last, out, keep);
            if s.Stop? then Climbs(root, root, s.result.out) else Climbs(root, root, s.out) && s.last == LastOf(root, s.out)
    decreases |vbs| - i
  {
    if i < |vbs| && vbs[i].tag != END_OF_MIB_VIEW && root <= vbs[i].oid && Lex(vbs[i].oid, last) > 0 {
      LexAntisymmetric(last, vbs[i].oid);
      ClimbsOn(root, root, out, vbs[i]);
      ScanClimbs(vbs, i + 1, root, vbs[i].oid, out + [vbs[i]], true);
    }
  }

  lemma {:induction false} WalkClimbs(agent: Agent, root: Name, round: nat, last: Name, out: seq<VarBind>, n: nat)
    requires Climbs(root, root, out) && last == LastOf(root, out) && n >= 128
    ensures Climbs(root, root, Walk(agent, root, round, last, out, n).out)
    decreases Pow(n) - Rank(last, n)
  {
    var reply := agent(round, last);
    if reply.Bulk? {
      ScanClimbs(reply.vbs, 0, root, last, out, false);
      var s := ScanFrom(reply.vbs, 0, root, last, out, false);
      if s.More? {
        ScanAdvances(reply.vbs, 0, root, last, out, false, n);
        WalkClimbs(agent, root, round + 1, s.last, s.out, n);
      }
    }
  }

  /** snmpWalk_impl from the start. */
  function FullWalk(agent: Agent, root: Name, ghost n: nat): Result
    requires n >= 128
  {
    Walk(agent, root, 0, root, [], n)
  }

  /** Whatever the agent replies, what is collected over all rounds lies under the root and strictly increases. */
  lemma WalkIsSafe(agent: Agent, root: Name, n: nat)
    requires n >= 128
    ensures Climbs(root, root, FullWalk(agent, root, n).out)
  {
    forall i: int ensures ClimbsAt(root, root, [], i) { }
    WalkClimbs(agent, root, 0, root, [], n);
  }

  // ---------------------------------------------------------------- an agent with a table

  /** The table of an agent, in order and without repeats. */
  ghost predicate Ordered(mib: seq<VarBind>) {
    forall i: int, j: int :: OrderedAt(mib, i, j)
  }

  ghost predicate OrderedAt(mib: seq<VarBind>, i: int, j: int) {
    0 <= i < j < |mib| ==> Lex(mib[i].oid, mib[j].oid) < 0
  }

  ghost predicate NoEndMarks(mib: seq<VarBind>) {
    forall i :: 0 <= i < |mib| ==> mib[i].tag != END_OF_MIB_VIEW
  }

  /** The first entry after `q`, from `i` on. */
  function FirstAfter(mib: seq<VarBind>, q: Name, i: nat): (k: nat)
    requires i <= |mib|
    ensures i <= k <= |mib| && (k < |mib| ==> Lex(mib[k].oid, q) > 0)
    ensures forall j :: i <= j < k ==> Lex(mib[j].oid, q) <= 0
    decreases |mib| - i
  {
    if i == |mib| || Lex(mib[i].oid, q) > 0 then i else FirstAfter(mib, q, i + 1)
  }

  /** GETBULK with 32 repetitions: the entries after the one asked for, and an end mark when the table is over. */
  function TableReply(mib: seq<VarBind>, q: Name): Reply {
    var k := FirstAfter(mib, q, 0);
    Bulk(if k + 32 <= |mib| then mib[k..k + 32] else mib[k..] + [VarBind(END_OF_MIB_VIEW, q)])
  }

  function TableAgent(mib: seq<VarBind>): Agent {
    (round: nat, q: Name) => TableReply(mib, q)
  }

  /** The entries of a table that lie under the root and after it. */
  function Subtree(mib: seq<VarBind>, root: Name): seq<VarBind> {
    if mib == [] then []
    else (if root <= mib[0].oid && Lex(root, mib[0].oid) < 0 then [mib[0]] else []) + Subtree(mib[1..], root)
  }

  /** The entries from `k` on as long as they lie under the root. */
  function Run(mib: seq<VarBind>, k: nat, root: Name): seq<VarBind>
    requires k <= |mib|
    decreases |mib| - k
  {
    if k == |mib| || !(root <= mib[k].oid) then [] else [mib[k]] + Run(mib, k + 1, root)
  }

  /** After one entry past the root that is not under it, no other is. */
  lemma {:induction false} NoneAfter(mib: seq<VarBind>, k: nat, root: Name)
    requires Ordered(mib) && k < |mib| && Lex(root, mib[k].oid) <= 0 && !(root <= mib[k].oid)
    ensures Subtree(mib[k..], root) == []
    decreases |mib| - k
  {
    assert mib[k..][1..] == mib[k + 1..];
    if k + 1 < |mib| {
      assert OrderedAt(mib, k, k + 1);
      LexTransitive(root, mib[k].oid, mib[k + 1].oid);
      if root <= mib[k + 1].oid { UnderInterval(root, mib[k].oid, mib[k + 1].oid); }
      NoneAfter(mib, k + 1, root);
    }
  }

  /** Past the root the subtree is the run. */
  lemma {:induction false} SubtreeIsRun(mib: seq<VarBind>, k: nat, root: Name)
    requires Ordered(mib) && k <= |mib| && (k < |mib| ==> Lex(root, mib[k].oid) < 0)
    ensures Subtree(mib[k..], root) == Run(mib, k, root)
    decreases |mib| - k
  {
    if k < |mib| {
      if root <= mib[k].oid {
        assert mib[k..][1..] == mib[k + 1..];
        if k + 1 < |mib| {
          assert OrderedAt(mib, k, k + 1);
          LexTransitive(root, mib[k].oid, mib[k + 1].oid);
        }
        SubtreeIsRun(mib, k + 1, root);
      } else {
        NoneAfter(mib, k, root);
      }
    }
  }

  /** Entries at or before the root do not count. */
  lemma {:induction false} SubtreeSkips(mib: seq<VarBind>, i: nat, k: nat, root: Name)
    requires i <= k <= |mib| && forall j :: i <= j < k ==> Lex(mib[j].oid, root) <= 0
    ensures Subtree(mib[i..], root) == Subtree(mib[k..], root)
    decreases k - i
  {
    if i < k {
      LexAntisymmetric(root, mib[i].oid);
      assert mib[i..][1..] == mib[i + 1..];
      SubtreeSkips(mib, i + 1, k, root);
    }
  }

  /** After an entry of an ordered table comes the next one. */
  lemma FirstAfterEntry(mib: seq<VarBind>, j: nat)
    requires Ordered(mib) && j < |mib|
    ensures FirstAfter(mib, mib[j].oid, 0) == j + 1
  {
    var k := FirstAfter(mib, mib[j].oid, 0);
    LexAntisymmetric(mib[j].oid, mib[j].oid);
    if k <= j {
      assert OrderedAt(mib, k, j);
      LexAntisymmetric(mib[k].oid, mib[j].oid);
    }
    if k > j + 1 {
      assert OrderedAt(mib, j, j + 1);
      LexAntisymmetric(mib[j].oid, mib[j + 1].oid);
    }
  }

  /** From entry `i` on, the reply gives the table from `j` on, or ends with an end mark where the table ends. */
  predicate Serves(vbs: seq<VarBind>, i: nat, mib: seq<VarBind>, j: nat)
    requires i <= |vbs| && j <= |mib|
    decreases |vbs| - i
  {
    i == |vbs| || (if j == |mib| then vbs[i].tag == END_OF_MIB_VIEW else vbs[i] == mib[j] && Serves(vbs, i + 1, mib, j + 1))
  }

  lemma {:induction false} SliceServes(mib: seq<VarBind>, k: nat, m: nat, i: nat)
    requires k <= m <= |mib| && i <= m - k
    ensures Serves(mib[k..m], i, mib, k + i)
    decreases m - k - i
  {
    if i < m - k { SliceServes(mib, k, m, i + 1); }
  }

  lemma {:induction false} TailServes(mib: seq<VarBind>, k: nat, last: VarBind, i: nat)
    requires k <= |mib| && i <= |mib| - k && last.tag == END_OF_MIB_VIEW
    ensures Serves(mib[k..] + [last], i, mib, k + i)
    decreases |mib| - k - i
  {
    if i < |mib| - k { TailServes(mib, k, last, i + 1); }
  }

  lemma ReplyServes(mib: seq<VarBind>, q: Name)
    ensures var r := TableReply(mib, q); r.Bulk? && r.vbs != [] && Serves(r.vbs, 0, mib, FirstAfter(mib, q, 0))
  {
    var k := FirstAfter(mib, q, 0);
    if k + 32 <= |mib| {
      SliceServes(mib, k, k + 32, 0);
    } else {
      TailServes(mib, k, VarBind(END_OF_MIB_VIEW, q), 0);
    }
  }

  /** One round over such a reply: either the subtree is complete, or it goes on right after what was collected. */
  lemma {:induction false} ScanTable(vbs: seq<VarBind>, i: nat, mib: seq<VarBind>, root: Name, last: Name, out: seq<VarBind>, keep: bool)
    requires Ordered(mib) && NoEndMarks(mib) && i <= |vbs| && (i < |vbs| || keep)
    requires Serves(vbs, i, mib, FirstAfter(mib, last, 0))
    ensures var s, all := ScanFrom(vbs, i, root, last, out, keep), out + Run(mib, FirstAfter(mib, last, 0), root);
            if s.Stop? then s.result == Result(OK, all) else s.out + Run(mib, FirstAfter(mib, s.last, 0), root) == all
    decreases |vbs| - i
  {
    var j := FirstAfter(mib, last, 0);
    if i < |vbs| {
      if j == |mib| || !(root <= mib[j].oid) {
        assert out + [] == out;
      } else {
        FirstAfterEntry(mib, j);
        ScanTable(vbs, i + 1, mib, root, vbs[i].oid, out + [vbs[i]], true);
        assert out + [vbs[i]] + Run(mib, j + 1, root) == out + ([mib[j]] + Run(mib, j + 1, root));
      }
    }
  }

  lemma {:induction false} WalkTable(mib: seq<VarBind>, root: Name, round: nat, last: Name, out: seq<VarBind>, n: nat)
    requires Ordered(mib) && NoEndMarks(mib) && n >= 128
    ensures Walk(TableAgent(mib), root, round, last, out, n) == Result(OK, out + Run(mib, FirstAfter(mib, last, 0), root))
    decreases Pow(n) - Rank(last, n)
  {
    ReplyServes(mib, last);
    var vbs := TableReply(mib, last).vbs;
    ScanTable(vbs, 0, mib, root, last, out, false);
    var s := ScanFrom(vbs, 0, root, last, out, false);
    if s.More? {
      ScanAdvances(vbs, 0, root, last, out, false, n);
      WalkTable(mib, root, round + 1, s.last, s.out, n);
    }
  }

  /** Against an agent that answers from an ordered table, the walk collects exactly the subtree, in order. */
  lemma WalkIsComplete(mib: seq<VarBind>, root: Name, n: nat)
    requires Ordered(mib) && NoEndMarks(mib) && n >= 128
    ensures FullWalk(TableAgent(mib), root, n) == Result(OK, Subtree(mib, root))
  {
    WalkTable(mib, root, 0, root, [], n);
    var k := FirstAfter(mib, root, 0);
    if k < |mib| { LexAntisymmetric(root, mib[k].oid); }
    SubtreeSkips(mib, 0, k, root);
    SubtreeIsRun(mib, k, root);
    assert mib[0..] == mib && [] + Run(mib, k, root) == Run(mib, k, root);
  }

  // ---------------------------------------------------------------- the loops

  /** The agent only sends identifiers whose text fits the buffer of the last one. */
  ghost predicate Bounded(agent: Agent) {
    forall round: nat, q: Name :: BoundedReply(agent(round, q))
  }

  ghost predicate BoundedReply(r: Reply) {
    r.Bulk? ==> forall i :: 0 <= i < |r.vbs| ==> Short(r.vbs[i].oid)
  }

  ghost predicate Short(x: Name) { |Dotted(x)| < SNMP_OID_STR_CAP }

  /** snmpWalk_impl: nested loops over the text of the last identifier and the list collected so far. */
  method SnmpWalk(agent: Agent, root: Name, ghost n: nat) returns (code: Code, out: seq<VarBind>)
    requires n >= 128 && Bounded(agent)
    ensures Result(code, out) == if Short(root) then FullWalk(agent, root, n) else Result(Invalid, [])
  {
    var rootText := Dotted(root);
    if |rootText| >= SNMP_OID_STR_CAP {
      return Invalid, [];
    }
    var last, round := root, 0;
    out := [];
    while true
      invariant round >= 0 && Walk(agent, root, round, last, out, n) == FullWalk(agent, root, n)
      decreases Pow(n) - Rank(last, n)
    {
      var reply := agent(round, last);
      if reply.Failed? {
        return Net(reply.code), out;
      }
      assert BoundedReply(reply);
      ScanAdvances(reply.vbs, 0, root, last, out, false, n);
      var s := ScanReply(reply.vbs, root, rootText, last, out);
      if s.Stop? {
        return s.result.code, s.result.out;
      }
      last, out, round := s.last, s.out, round + 1;
    }
  }

  /** The inner loop; the text of an accepted entry is copied into the buffer of the last one. */
  method ScanReply(vbs: seq<VarBind>, root: Name, rootText: string, last0: Name, out0: seq<VarBind>) returns (s: Scan)
    requires rootText == Dotted(root) && BoundedReply(Bulk(vbs))
    ensures s == ScanFrom(vbs, 0, root, last0, out0, false)
  {
    var last, out, keep := last0, out0, false;
    var lastText := Dotted(last);
    for i := 0 to |vbs|
      invariant lastText == Dotted(last) && ScanFrom(vbs, i, root, last, out, keep) == ScanFrom(vbs, 0, root, last0, out0, false)
    {
      var later := IsLater(vbs[i], root, rootText, last, lastText);
      if later.None? {
        return Stop(Result(OK, out));
      }
      if !later.value {
        return Stop(Result(Invalid, out));
      }
      out := out + [vbs[i]];
      last := vbs[i].oid;
      assert Short(last);
      lastText := CutText(Dotted(last));
      keep := true;
    }
    s := if keep then More(last, out) else Stop(Result(OK, out));
  }

  /** At most 255 characters are kept. */
  function CutText(s: string): string {
    if |s| >= SNMP_OID_STR_CAP then s[..SNMP_OID_STR_CAP - 1] else s
  }

  /** The tests on one entry: None when the walk is over. */
  method IsLater(vb: VarBind, root: Name, rootText: string, last: Name, lastText: string) returns (r: Option<bool>)
    requires rootText == Dotted(root) && lastText == Dotted(last)
    ensures r == if vb.tag == END_OF_MIB_VIEW || !(root <= vb.oid) then None else Some(Lex(vb.oid, last) > 0)
  {
    var oidText := Dotted(vb.oid);
    PrefixMatchIsPrefix(root, vb.oid);
    if vb.tag == END_OF_MIB_VIEW || !IsPrefixMatch(rootText, oidText) {
      return None;
    }
    var c := CompareNumeric(oidText, lastText, vb.oid, last);
    r := Some(c > 0);
  }
}
