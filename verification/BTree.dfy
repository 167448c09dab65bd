/**
 B-tree insertion of src/btree.c on tree values: splitting, the search for a slot, and the invariants that
 insertion keeps together.  Keys are compared as the addresses they are, so equal keys are allowed.
 */
module BTree {
  import opened Common

  datatype Entry = Entry(key: int, value: int)

  /** A leaf has no children; any other node has one child more than it has entries. */
  datatype Tree = Node(entries: seq<Entry>, children: seq<Tree>)

  // ---------------------------------------------------------------- contents

  /** Everything in front of child `i`. */
  function Before(t: Tree, i: nat): seq<Entry>
    requires i <= |t.entries| && i <= |t.children|
    decreases t, i
  {
    if i == 0 then [] else Before(t, i - 1) + InOrder(t.children[i - 1]) + [t.entries[i - 1]]
  }

  /** Everything behind child `i`. */
  function After(t: Tree, i: nat): seq<Entry>
    requires i <= |t.entries| && |t.children| == |t.entries| + 1
    decreases t, |t.entries| - i
  {
    if i == |t.entries| then [] else [t.entries[i]] + InOrder(t.children[i + 1]) + After(t, i + 1)
  }

  function InOrder(t: Tree): seq<Entry>
    decreases t, |t.entries| + 1
  {
    if |t.children| != |t.entries| + 1 then t.entries
    else Before(t, |t.entries|) + InOrder(t.children[|t.entries|])
  }

  ghost predicate Sorted(s: seq<Entry>) {
    forall i: int, j: int :: InOrderAt(s, i, j)
  }

  predicate InOrderAt(s: seq<Entry>, i: int, j: int) {
    0 <= i < j < |s| ==> s[i].key <= s[j].key
  }

  /** Around any child, the contents are what lies before it, the child's contents, and what lies behind it. */
  lemma {:induction false} Around(t: Tree, i: nat)
    requires i <= |t.entries| && |t.children| == |t.entries| + 1
    ensures InOrder(t) == Before(t, i) + InOrder(t.children[i]) + After(t, i)
    decreases |t.entries| - i
  {
    if i < |t.entries| {
      Around(t, i + 1);
      assert Before(t, i + 1) + InOrder(t.children[i + 1]) + After(t, i + 1)
          == Before(t, i) + InOrder(t.children[i]) + ([t.entries[i]] + InOrder(t.children[i + 1]) + After(t, i + 1));
    }
  }

  // ---------------------------------------------------------------- shape

  /** Minimum degree `m`: all leaves at depth `h`, at most 2m-1 entries, at least m-1 below the root. */
  ghost predicate Shape(t: Tree, m: nat, h: nat)
    decreases h, 1
  {
    && m >= 2 && |t.entries| <= 2 * m - 1
    && (h == 0 ==> t.children == [])
    && (h > 0 ==> |t.children| == |t.entries| + 1 && forall i: int :: ChildOk(t, i, m, h))
  }

  ghost predicate ChildOk(t: Tree, i: int, m: nat, h: nat)
    requires h > 0
    decreases h, 0
  {
    0 <= i < |t.children| ==> Shape(t.children[i], m, h - 1) && |t.children[i].entries| >= m - 1
  }

  lemma ChildShape(t: Tree, i: nat, m: nat, h: nat)
    requires h > 0 && Shape(t, m, h) && i < |t.children|
    ensures Shape(t.children[i], m, h - 1) && m - 1 <= |t.children[i].entries| <= 2 * m - 1
  {
    assert ChildOk(t, i, m, h);
    assert Shape(t.children[i], m, h - 1);
  }

  lemma ReplaceShape(t: Tree, i: nat, c: Tree, m: nat, h: nat)
    requires h > 0 && Shape(t, m, h) && i < |t.children| && Shape(c, m, h - 1) && |c.entries| >= m - 1
    ensures Shape(Node(t.entries, t.children[i := c]), m, h)
  {
    var u := Node(t.entries, t.children[i := c]);
    forall j: int ensures ChildOk(u, j, m, h) {
      assert ChildOk(t, j, m, h);
      if 0 <= j < |t.children| { assert u.children[j] == if j == i then c else t.children[j]; }
    }
    assert Shape(u, m, h);
  }

  // ---------------------------------------------------------------- splitting

  function LeftHalf(y: Tree, m: nat): Tree
    requires m >= 1 && |y.entries| == 2 * m - 1 && (y.children == [] || |y.children| == 2 * m)
  {
    Node(y.entries[..m - 1], if y.children == [] then [] else y.children[..m])
  }

  function RightHalf(y: Tree, m: nat): Tree
    requires m >= 1 && |y.entries| == 2 * m - 1 && (y.children == [] || |y.children| == 2 * m)
  {
    Node(y.entries[m..], if y.children == [] then [] else y.children[m..])
  }

  /** BTree_split_child: the full child `i` becomes two, its middle entry moves up. */
  function SplitChild(t: Tree, i: nat, m: nat): Tree
    requires i < |t.children| && i <= |t.entries| && m >= 1
    requires |t.children[i].entries| == 2 * m - 1 && (t.children[i].children == [] || |t.children[i].children| == 2 * m)
  {
    var y := t.children[i];
    Node(t.entries[..i] + [y.entries[m - 1]] + t.entries[i..],
         t.children[..i] + [LeftHalf(y, m), RightHalf(y, m)] + t.children[i + 1..])
  }

  /** Trees that agree on their first parts have the same contents there. */
  lemma {:induction false} BeforePrefix(t: Tree, u: Tree, i: nat)
    requires i <= |t.entries| && i <= |t.children| && i <= |u.entries| && i <= |u.children|
    requires t.entries[..i] == u.entries[..i] && t.children[..i] == u.children[..i]
    ensures Before(t, i) == Before(u, i)
  {
    if i > 0 {
      assert t.entries[..i - 1] == t.entries[..i][..i - 1] && u.entries[..i - 1] == u.entries[..i][..i - 1];
      assert t.children[..i - 1] == t.children[..i][..i - 1] && u.children[..i - 1] == u.children[..i][..i - 1];
      BeforePrefix(t, u, i - 1);
      assert t.children[i - 1] == t.children[..i][i - 1] && u.children[i - 1] == u.children[..i][i - 1];
      assert t.entries[i - 1] == t.entries[..i][i - 1] && u.entries[i - 1] == u.entries[..i][i - 1];
    }
  }

  /** Trees that agree on their last parts have the same contents there. */
  lemma {:induction false} AfterSuffix(t: Tree, u: Tree, i: nat, j: nat)
    requires i <= |t.entries| && |t.children| == |t.entries| + 1
    requires j <= |u.entries| && |u.children| == |u.entries| + 1
    requires t.entries[i..] == u.entries[j..] && t.children[i + 1..] == u.children[j + 1..]
    ensures After(t, i) == After(u, j)
    decreases |t.entries| - i
  {
    assert |t.entries[i..]| == |u.entries[j..]|;
    if i < |t.entries| {
      assert t.entries[i] == t.entries[i..][0] && u.entries[j] == u.entries[j..][0];
      assert t.children[i + 1] == t.children[i + 1..][0] && u.children[j + 1] == u.children[j + 1..][0];
      assert t.entries[i + 1..] == t.entries[i..][1..] && u.entries[j + 1..] == u.entries[j..][1..];
      assert t.children[i + 2..] == t.children[i + 1..][1..] && u.children[j + 2..] == u.children[j + 1..][1..];
      AfterSuffix(t, u, i + 1, j + 1);
    }
  }

  lemma Regroup(a: seq<Entry>, b: seq<Entry>, c: seq<Entry>, d: seq<Entry>, e: seq<Entry>)
    ensures a + b + (c + d + e) == a + (b + c + d) + e
    ensures (a + b) + c + (d + e) == a + b + (c + d + e)
  {
  }

  /** The halves and the middle entry hold what the full node held. */
  lemma HalvesInOrder(y: Tree, m: nat)
    requires m >= 1 && |y.entries| == 2 * m - 1 && (y.children == [] || |y.children| == 2 * m)
    ensures InOrder(y) == InOrder(LeftHalf(y, m)) + [y.entries[m - 1]] + InOrder(RightHalf(y, m))
  {
    var l, r := LeftHalf(y, m), RightHalf(y, m);
    if y.children == [] {
      assert y.entries == l.entries + [y.entries[m - 1]] + r.entries;
    } else {
      LeftInOrder(y, m);
      RightInOrder(y, m);
      Around(y, m - 1);
      Regroup(Before(y, m - 1), InOrder(y.children[m - 1]), [y.entries[m - 1]], InOrder(y.children[m]), After(y, m));
    }
  }

  lemma LeftInOrder(y: Tree, m: nat)
    requires m >= 1 && |y.entries| == 2 * m - 1 && |y.children| == 2 * m
    ensures InOrder(LeftHalf(y, m)) == Before(y, m - 1) + InOrder(y.children[m - 1])
  {
    var l := LeftHalf(y, m);
    assert y.entries[..m - 1] == l.entries[..m - 1] && y.children[..m - 1] == l.children[..m - 1];
    BeforePrefix(y, l, m - 1);
  }

  lemma RightInOrder(y: Tree, m: nat)
    requires m >= 1 && |y.entries| == 2 * m - 1 && |y.children| == 2 * m
    ensures InOrder(RightHalf(y, m)) == InOrder(y.children[m]) + After(y, m)
  {
    var r := RightHalf(y, m);
    Around(r, 0);
    RightParts(y, m, r);
    AfterSuffix(y, r, m, 0);
  }

  lemma RightParts(y: Tree, m: nat, r: Tree)
    requires m >= 1 && |y.entries| == 2 * m - 1 && |y.children| == 2 * m && r == RightHalf(y, m)
    ensures y.children[m + 1..] == r.children[1..] && y.entries[m..] == r.entries[0..] && r.children[0] == y.children[m]
  {
  }

  /** Where the pieces of the parent and of the full child end up. */
  lemma SplitParts(t: Tree, i: nat, m: nat)
    requires i <= |t.entries| && |t.children| == |t.entries| + 1 && m >= 1
    requires |t.children[i].entries| == 2 * m - 1 && (t.children[i].children == [] || |t.children[i].children| == 2 * m)
    ensures var t', y := SplitChild(t, i, m), t.children[i];
            && |t'.entries| == |t.entries| + 1 && |t'.children| == |t.children| + 1
            && t'.entries[..i] == t.entries[..i] && t'.children[..i] == t.children[..i]
            && t'.entries[i] == y.entries[m - 1]
            && t'.children[i] == LeftHalf(y, m) && t'.children[i + 1] == RightHalf(y, m)
            && t'.entries[i + 1..] == t.entries[i..] && t'.children[i + 2..] == t.children[i + 1..]
  {
  }

  /** Splitting a full child moves entries but changes no contents. */
  lemma SplitInOrder(t: Tree, i: nat, m: nat)
    requires i <= |t.entries| && |t.children| == |t.entries| + 1 && m >= 1
    requires |t.children[i].entries| == 2 * m - 1 && (t.children[i].children == [] || |t.children[i].children| == 2 * m)
    ensures InOrder(SplitChild(t, i, m)) == InOrder(t)
  {
    var t', y := SplitChild(t, i, m), t.children[i];
    SplitParts(t, i, m);
    HalvesInOrder(y, m);
    Around(t, i);
    Around(t', i);
    BeforePrefix(t, t', i);
    AfterSuffix(t', t, i + 1, i);
    Regroup(Before(t, i), InOrder(LeftHalf(y, m)), [y.entries[m - 1]], InOrder(RightHalf(y, m)), After(t, i));
  }

  lemma SplitShape(t: Tree, i: nat, m: nat, h: nat)
    requires h >= 1 && Shape(t, m, h) && |t.entries| < 2 * m - 1 && i <= |t.entries|
    requires |t.children[i].entries| == 2 * m - 1
    ensures t.children[i].children == [] || |t.children[i].children| == 2 * m
    ensures Shape(SplitChild(t, i, m), m, h)
    ensures |SplitChild(t, i, m).children[i].entries| == m - 1 && |SplitChild(t, i, m).children[i + 1].entries| == m - 1
  {
    var y := t.children[i];
    assert ChildOk(t, i, m, h);
    HalvesShape(y, m, h - 1);
    SplitParts(t, i, m);
    var t' := SplitChild(t, i, m);
    forall j: int ensures ChildOk(t', j, m, h) {
      if 0 <= j < i {
        assert ChildOk(t, j, m, h);
        assert t'.children[j] == t'.children[..i][j] == t.children[j];
      } else if i + 2 <= j < |t'.children| {
        assert ChildOk(t, j - 1, m, h);
        assert t'.children[j] == t'.children[i + 2..][j - i - 2] == t.children[i + 1..][j - i - 2] == t.children[j - 1];
      }
    }
  }

  lemma HalvesShape(y: Tree, m: nat, h: nat)
    requires Shape(y, m, h) && |y.entries| == 2 * m - 1
    ensures y.children == [] || |y.children| == 2 * m
    ensures Shape(LeftHalf(y, m), m, h) && Shape(RightHalf(y, m), m, h)
  {
    if h > 0 {
      var l, r := LeftHalf(y, m), RightHalf(y, m);
      forall j: int ensures ChildOk(l, j, m, h) && ChildOk(r, j, m, h) {
        assert ChildOk(y, j, m, h) && ChildOk(y, m + j, m, h);
      }
    }
  }

  // ---------------------------------------------------------------- insertion

  /** The scan from the right: past every entry with a larger key among the first `n`. */
  function Slot(entries: seq<Entry>, key: int, n: nat): (i: nat)
    requires n <= |entries|
    ensures i <= n && (i > 0 ==> entries[i - 1].key <= key)
    ensures i < n ==> key < entries[i].key
  {
    if n == 0 || entries[n - 1].key <= key then n else Slot(entries, key, n - 1)
  }

  /** The key fits between the entries around child `i`. */
  predicate Fits(t: Tree, i: nat, key: int) {
    && i <= |t.entries|
    && (i > 0 ==> t.entries[i - 1].key <= key)
    && (i < |t.entries| ==> key <= t.entries[i].key)
  }

  /** After a split the key fits around one of the halves. */
  lemma SplitFits(t: Tree, i: nat, m: nat, h: nat, key: int)
    requires h >= 1 && Shape(t, m, h) && |t.entries| < 2 * m - 1 && Fits(t, i, key)
    requires |t.children[i].entries| == 2 * m - 1
    ensures t.children[i].children == [] || |t.children[i].children| == 2 * m
    ensures var t1 := SplitChild(t, i, m); Fits(t1, if t1.entries[i].key < key then i + 1 else i, key)
  {
    SplitShape(t, i, m, h);
    SplitParts(t, i, m);
    var t1 := SplitChild(t, i, m);
    assert i > 0 ==> t1.entries[i - 1] == t1.entries[..i][i - 1] == t.entries[i - 1];
    assert i < |t.entries| ==> t1.entries[i + 1] == t1.entries[i + 1..][0] == t.entries[i];
  }

  /** The node and child to go on with: a full child on the way down is split first. */
  function Descend(t: Tree, key: int, m: nat, h: nat): (r: (Tree, nat))
    requires h >= 1 && Shape(t, m, h) && |t.entries| < 2 * m - 1
    ensures Shape(r.0, m, h) && Fits(r.0, r.1, key) && |r.0.children[r.1].entries| < 2 * m - 1
    ensures |t.entries| <= |r.0.entries| <= |t.entries| + 1
  {
    var i := Slot(t.entries, key, |t.entries|);
    ChildShape(t, i, m, h);
    if |t.children[i].entries| == 2 * m - 1 then
      SplitShape(t, i, m, h);
      SplitFits(t, i, m, h, key);
      var t1 := SplitChild(t, i, m);
      (t1, if t1.entries[i].key < key then i + 1 else i)
    else (t, i)
  }

  function InsertedAt(s: seq<Entry>, e: Entry, p: nat): seq<Entry>
    requires p <= |s|
  {
    s[..p] + [e] + s[p..]
  }

  lemma DescendInOrder(t: Tree, key: int, m: nat, h: nat)
    requires h >= 1 && Shape(t, m, h) && |t.entries| < 2 * m - 1
    ensures InOrder(Descend(t, key, m, h).0) == InOrder(t)
  {
    var i := Slot(t.entries, key, |t.entries|);
    if |t.children[i].entries| == 2 * m - 1 {
      SplitShape(t, i, m, h);
      SplitInOrder(t, i, m);
    }
  }

  /** Replacing a child replaces its stretch of the contents. */
  lemma ReplaceChild(t: Tree, i: nat, c: Tree)
    requires i <= |t.entries| && |t.children| == |t.entries| + 1
    ensures InOrder(Node(t.entries, t.children[i := c])) == Before(t, i) + InOrder(c) + After(t, i)
  {
    var u := Node(t.entries, t.children[i := c]);
    Around(u, i);
    assert u.children[..i] == t.children[..i] && u.children[i + 1..] == t.children[i + 1..];
    BeforePrefix(u, t, i);
    AfterSuffix(u, t, i, i);
  }

  lemma SortedParts(a: seq<Entry>, b: seq<Entry>, c: seq<Entry>)
    requires Sorted(a + b + c)
    ensures Sorted(a) && Sorted(b) && Sorted(c)
  {
    var s := a + b + c;
    forall i: int, j: int ensures InOrderAt(a, i, j) && InOrderAt(b, i, j) && InOrderAt(c, i, j) {
      assert InOrderAt(s, i, j) && InOrderAt(s, |a| + i, |a| + j) && InOrderAt(s, |a| + |b| + i, |a| + |b| + j);
    }
  }

  /** What lies before a child is bounded by the entry in front of it, what lies behind by the entry after it. */
  lemma Bounds(t: Tree, i: nat, key: int)
    requires |t.children| == |t.entries| + 1 && Fits(t, i, key) && Sorted(InOrder(t))
    ensures forall x :: x in Before(t, i) ==> x.key <= key
    ensures forall x :: x in After(t, i) ==> key <= x.key
  {
    Around(t, i);
    SortedParts(Before(t, i), InOrder(t.children[i]), After(t, i));
    var l, r := Before(t, i), After(t, i);
    if i > 0 {
      assert l[|l| - 1] == t.entries[i - 1];
      forall k | 0 <= k < |l| ensures l[k].key <= key { assert InOrderAt(l, k, |l| - 1); }
    }
    if i < |t.entries| {
      assert r[0] == t.entries[i];
      forall k | 0 <= k < |r| ensures key <= r[k].key { assert InOrderAt(r, 0, k); }
    }
  }

  lemma InsertInMiddle(a: seq<Entry>, b: seq<Entry>, c: seq<Entry>, e: Entry, p: nat)
    requires p <= |b| && Sorted(a + b + c) && Sorted(InsertedAt(b, e, p))
    requires (forall x :: x in a ==> x.key <= e.key) && (forall x :: x in c ==> e.key <= x.key)
    ensures a + InsertedAt(b, e, p) + c == InsertedAt(a + b + c, e, |a| + p)
    ensures Sorted(a + InsertedAt(b, e, p) + c)
  {
    var s, b' := a + b + c, InsertedAt(b, e, p);
    var s' := a + b' + c;
    assert s' == InsertedAt(s, e, |a| + p);
    forall i: int, j: int ensures InOrderAt(s', i, j) {
      if 0 <= i < j < |s'| {
        var q := |a| + p;
        assert InOrderAt(s, if i < q then i else i - 1, if j < q then j else j - 1);
        assert InOrderAt(b', i - |a|, j - |a|);
        if i != q && j != q {
          assert s'[i] == s[if i < q then i else i - 1] && s'[j] == s[if j < q then j else j - 1];
        } else if i == q && j < |a| + |b'| {
          assert s'[i] == b'[p] && s'[j] == b'[j - |a|];
        } else if j == q && i >= |a| {
          assert s'[i] == b'[i - |a|] && s'[j] == b'[p];
        } else if i == q {
          assert s'[j] == c[j - |a| - |b'|];
        } else {
          assert s'[i] == a[i];
        }
      }
    }
  }

  lemma InsertInLeaf(entries: seq<Entry>, e: Entry)
    requires Sorted(entries)
    ensures Sorted(InsertedAt(entries, e, Slot(entries, e.key, |entries|)))
  {
    var p := Slot(entries, e.key, |entries|);
    SortedInsert(entries, e, p);
  }
  lemma SortedInsert(entries: seq<Entry>, e: Entry, p: nat)
    requires Sorted(entries) && p <= |entries|
    requires p > 0 ==> entries[p-1].key <= e.key
    requires p < |entries| ==> e.key <= entries[p].key
    ensures Sorted(InsertedAt(entries, e, p))
  {
    var s := InsertedAt(entries, e, p);
    forall i: int, j: int ensures InOrderAt(s, i, j) {
      assert InOrderAt(entries, if i < p then i else i - 1, if j < p then j else j - 1);
      assert InOrderAt(entries, i, p - 1) && InOrderAt(entries, p, j - 1);
    }
  }

  /** `u` holds what `t` holds with `e` put in at position `p`, still in order. */
  ghost predicate Inserts(t: Tree, u: Tree, e: Entry, p: nat) {
    p <= |InOrder(t)| && InOrder(u) == InsertedAt(InOrder(t), e, p) && Sorted(InOrder(u))
  }

  lemma SameContents(t: Tree, t1: Tree, u: Tree, e: Entry, p: nat)
    requires InOrder(t) == InOrder(t1) && Inserts(t1, u, e, p)
    ensures Inserts(t, u, e, p)
  {
  }

  /** An insertion into a child that the key fits around is an insertion into the node. */
  lemma InsertsAround(t: Tree, u: Tree, a: seq<Entry>, y: Tree, y': Tree, c: seq<Entry>, e: Entry, q: nat)
    requires InOrder(t) == a + InOrder(y) + c && InOrder(u) == a + InOrder(y') + c
    requires Sorted(InOrder(t)) && Inserts(y, y', e, q)
    requires (forall x :: x in a ==> x.key <= e.key) && (forall x :: x in c ==> e.key <= x.key)
    ensures Inserts(t, u, e, |a| + q)
  {
    InsertInMiddle(a, InOrder(y), c, e, q);
  }

  /** What lies before and behind child `i`, also when another child takes its place. */
  lemma Surroundings(t: Tree, i: nat, c: Tree, key: int) returns (a: seq<Entry>, z: seq<Entry>)
    requires |t.children| == |t.entries| + 1 && Fits(t, i, key) && Sorted(InOrder(t))
    ensures InOrder(t) == a + InOrder(t.children[i]) + z
    ensures InOrder(Node(t.entries, t.children[i := c])) == a + InOrder(c) + z
    ensures (forall x :: x in a ==> x.key <= key) && (forall x :: x in z ==> key <= x.key)
  {
    Around(t, i);
    Bounds(t, i, key);
    ReplaceChild(t, i, c);
    a, z := Before(t, i), After(t, i);
  }

  lemma InsertBelow(t: Tree, i: nat, c: Tree, e: Entry, q: nat) returns (p: nat)
    requires |t.children| == |t.entries| + 1 && Fits(t, i, e.key) && Sorted(InOrder(t))
    requires Inserts(t.children[i], c, e, q)
    ensures Inserts(t, Node(t.entries, t.children[i := c]), e, p)
  {
    var a, z := Surroundings(t, i, c, e.key);
    InsertsAround(t, Node(t.entries, t.children[i := c]), a, t.children[i], c, z, e, q);
    p := |a| + q;
  }

  lemma ChildSorted(t: Tree, i: nat)
    requires |t.children| == |t.entries| + 1 && i <= |t.entries| && Sorted(InOrder(t))
    ensures Sorted(InOrder(t.children[i]))
  {
    Around(t, i);
    SortedParts(Before(t, i), InOrder(t.children[i]), After(t, i));
  }

  /** `u` holds the contents of `t` with the new pair put in somewhere, in order, and nothing else moved. */
  ghost predicate PutsIn(t: Tree, u: Tree, e: Entry) {
    Sorted(InOrder(t)) ==> exists p: nat :: Inserts(t, u, e, p)
  }

  lemma PutsInLeaf(entries: seq<Entry>, e: Entry)
    ensures PutsIn(Node(entries, []), Node(InsertedAt(entries, e, Slot(entries, e.key, |entries|)), []), e)
  {
    var t, p := Node(entries, []), Slot(entries, e.key, |entries|);
    if Sorted(InOrder(t)) {
      InsertInLeaf(entries, e);
      assert Inserts(t, Node(InsertedAt(entries, e, p), []), e, p);
    }
  }

  lemma PutsInBelow(t: Tree, t1: Tree, i: nat, c: Tree, e: Entry)
    requires InOrder(t1) == InOrder(t) && |t1.children| == |t1.entries| + 1 && Fits(t1, i, e.key)
    requires PutsIn(t1.children[i], c, e)
    ensures PutsIn(t, Node(t1.entries, t1.children[i := c]), e)
  {
    var u := Node(t1.entries, t1.children[i := c]);
    if Sorted(InOrder(t)) {
      ChildSorted(t1, i);
      var q: nat :| Inserts(t1.children[i], c, e, q);
      var p := InsertBelow(t1, i, c, e, q);
      SameContents(t, t1, u, e, p);
    }
  }

  /** BTree_insert_non_full. */
  function InsertNonFull(t: Tree, e: Entry, m: nat, h: nat): (r: Tree)
    requires Shape(t, m, h) && |t.entries| < 2 * m - 1
    ensures Shape(r, m, h) && |t.entries| <= |r.entries| <= |t.entries| + 1
    ensures PutsIn(t, r, e)
    decreases h
  {
    if t.children == [] then
      PutsInLeaf(t.entries, e);
      Node(InsertedAt(t.entries, e, Slot(t.entries, e.key, |t.entries|)), [])
    else
      var (t1, i) := Descend(t, e.key, m, h);
      ChildShape(t1, i, m, h);
      DescendInOrder(t, e.key, m, h);
      var c := InsertNonFull(t1.children[i], e, m, h - 1);
      ReplaceShape(t1, i, c, m, h);
      PutsInBelow(t, t1, i, c, e);
      Node(t1.entries, t1.children[i := c])
  }

  // ---------------------------------------------------------------- the whole tree

  /** A tree with its height; the root of a taller tree has at least one entry. */
  ghost predicate WellFormed(t: Tree, m: nat, h: nat) {
    Shape(t, m, h) && (h > 0 ==> |t.entries| >= 1)
  }

  /** A new root above a full one: one entry, two half-full children. */
  lemma GrownShape(t: Tree, m: nat, h: nat)
    requires Shape(t, m, h) && |t.entries| == 2 * m - 1
    ensures t.children == [] || |t.children| == 2 * m
    ensures Shape(SplitChild(Node([], [t]), 0, m), m, h + 1) && |SplitChild(Node([], [t]), 0, m).entries| == 1
    ensures InOrder(SplitChild(Node([], [t]), 0, m)) == InOrder(t)
  {
    var s, h' := Node([], [t]), h + 1;
    forall i: int ensures ChildOk(s, i, m, h') { }
    SplitShape(s, 0, m, h');
    SplitInOrder(s, 0, m);
  }

  predicate Full(t: Tree, m: nat) {
    m >= 2 && |t.entries| == 2 * m - 1 && (t.children == [] || |t.children| == 2 * m)
  }

  /** A full root below a new one. */
  function Grown(t: Tree, m: nat): Tree
    requires Full(t, m)
  {
    SplitChild(Node([], [t]), 0, m)
  }

  ghost predicate HasRoom(t: Tree, m: nat, h: nat) {
    Shape(t, m, h) && |t.entries| < 2 * m - 1
  }

  /** The root that an entry goes into, with its height: a full one becomes the child of a new one. */
  function Lifted(t: Tree, m: nat, h: nat): (Tree, nat)
    requires |t.entries| == 2 * m - 1 ==> Full(t, m)
  {
    if |t.entries| == 2 * m - 1 then (Grown(t, m), h + 1) else (t, h)
  }

  /** It has room, and holds what was there. */
  lemma LiftedHasRoom(t: Tree, m: nat, h: nat)
    requires WellFormed(t, m, h)
    ensures |t.entries| == 2 * m - 1 ==> Full(t, m)
    ensures var (s, k) := Lifted(t, m, h); HasRoom(s, m, k) && InOrder(s) == InOrder(t) && (k > 0 ==> |s.entries| >= 1)
  {
    if |t.entries| == 2 * m - 1 { GrownShape(t, m, h); }
  }

  /** impl_insert. */
  function Insert(t: Tree, e: Entry, m: nat, h: nat): (Tree, nat)
    requires WellFormed(t, m, h)
  {
    LiftedHasRoom(t, m, h);
    var (s, k) := Lifted(t, m, h);
    (InsertNonFull(s, e, m, k), k)
  }

  /** An insertion keeps the shape of the tree and puts the entry where it belongs. */
  lemma InsertKeeps(t: Tree, e: Entry, m: nat, h: nat)
    requires WellFormed(t, m, h)
    ensures WellFormed(Insert(t, e, m, h).0, m, Insert(t, e, m, h).1) && PutsIn(t, Insert(t, e, m, h).0, e)
  {
    LiftedHasRoom(t, m, h);
    var (s, k) := Lifted(t, m, h);
    PutsInSame(t, s, InsertNonFull(s, e, m, k), e);
  }

  lemma PutsInSame(t: Tree, s: Tree, u: Tree, e: Entry)
    requires InOrder(s) == InOrder(t) && PutsIn(s, u, e)
    ensures PutsIn(t, u, e)
  {
    if Sorted(InOrder(t)) {
      var p: nat :| Inserts(s, u, e, p);
      SameContents(t, s, u, e, p);
    }
  }

  /** A tree together with what the program keeps beside it. */
  datatype Store = Store(root: Tree, height: nat, size: nat)

  function Empty(): Store {
    Store(Node([], []), 0, 0)
  }

  ghost predicate Valid(s: Store, m: nat) {
    WellFormed(s.root, m, s.height) && Sorted(InOrder(s.root)) && s.size == |InOrder(s.root)|
  }

  function Add(s: Store, e: Entry, m: nat): Store
    requires WellFormed(s.root, m, s.height)
  {
    var (t, h) := Insert(s.root, e, m, s.height);
    Store(t, h, s.size + 1)
  }

  lemma AddKeeps(s: Store, e: Entry, m: nat)
    requires Valid(s, m)
    ensures Valid(Add(s, e, m), m)
    ensures multiset(InOrder(Add(s, e, m).root)) == multiset(InOrder(s.root)) + multiset{e}
  {
    InsertKeeps(s.root, e, m, s.height);
    var old', u := InOrder(s.root), Insert(s.root, e, m, s.height).0;
    var p: nat :| Inserts(s.root, u, e, p);
    InsertedContents(old', e, p);
  }

  lemma InsertedContents(s: seq<Entry>, e: Entry, p: nat)
    requires p <= |s|
    ensures multiset(InsertedAt(s, e, p)) == multiset(s) + multiset{e}
  {
    assert s == s[..p] + s[p..];
  }

  function AddAll(s: Store, es: seq<Entry>, m: nat): (r: Store)
    requires WellFormed(s.root, m, s.height)
    ensures WellFormed(r.root, m, r.height)
    decreases |es|
  {
    if es == [] then s else
      InsertKeeps(s.root, es[0], m, s.height);
      AddAll(Add(s, es[0], m), es[1..], m)
  }

  /** After any sequence of insertions the tree is valid and holds exactly the pairs that were inserted. */
  lemma {:induction false} EverySequence(s: Store, es: seq<Entry>, m: nat)
    requires Valid(s, m)
    ensures Valid(AddAll(s, es, m), m)
    ensures multiset(InOrder(AddAll(s, es, m).root)) == multiset(InOrder(s.root)) + multiset(es)
    decreases |es|
  {
    if es != [] {
      AddKeeps(s, es[0], m);
      EverySequence(Add(s, es[0], m), es[1..], m);
      AddFirst(multiset(InOrder(s.root)), es);
    }
  }

  lemma AddFirst(a: multiset<Entry>, es: seq<Entry>)
    requires es != []
    ensures a + multiset{es[0]} + multiset(es[1..]) == a + multiset(es)
  {
    assert es == [es[0]] + es[1..];
  }

  // ---------------------------------------------------------------- references to keys and values

  function Mentions(e: Entry, x: int): nat {
    Bit(e.key == x) + Bit(e.value == x)
  }

  /** How many references a stretch of entries holds on object `x`. */
  function Refs(s: seq<Entry>, x: int): nat {
    if s == [] then 0 else Mentions(s[0], x) + Refs(s[1..], x)
  }

  lemma {:induction false} RefsConcat(a: seq<Entry>, b: seq<Entry>, x: int)
    ensures Refs(a + b, x) == Refs(a, x) + Refs(b, x)
  {
    if a == [] {
      assert a + b == b;
    } else {
      RefsConcat(a[1..], b, x);
      assert (a + b)[1..] == a[1..] + b;
    }
  }

  lemma RefsOne(e: Entry, x: int)
    ensures Refs([e], x) == Mentions(e, x)
  {
    assert [e][1..] == [];
  }

  /** How often BTree_free_node releases `x`: for the node's own entries, and then in its first `n` children. */
  function FreedChildren(t: Tree, n: nat, x: int): nat
    requires n <= |t.children|
    decreases t, n
  {
    if n == 0 then 0 else FreedChildren(t, n - 1, x) + Freed(t.children[n - 1], x)
  }

  function Freed(t: Tree, x: int): nat
    decreases t, |t.children| + 1
  {
    Refs(t.entries, x) + FreedChildren(t, |t.children|, x)
  }

  lemma {:induction false} FreedBefore(t: Tree, i: nat, m: nat, h: nat, x: int)
    requires h > 0 && Shape(t, m, h) && i <= |t.entries|
    ensures Refs(Before(t, i), x) == FreedChildren(t, i, x) + Refs(t.entries[..i], x)
    decreases h, i
  {
    if i > 0 {
      var c, e := t.children[i - 1], t.entries[i - 1];
      FreedBefore(t, i - 1, m, h, x);
      ChildShape(t, i - 1, m, h);
      FreedIsStored(c, m, h - 1, x);
      RefsConcat(Before(t, i - 1), InOrder(c), x);
      RefsConcat(Before(t, i - 1) + InOrder(c), [e], x);
      RefsConcat(t.entries[..i - 1], [e], x);
      assert t.entries[..i] == t.entries[..i - 1] + [e];
    }
  }

  /** Freeing a tree releases every stored key and value as often as it is stored: no more and no less. */
  lemma {:induction false} FreedIsStored(t: Tree, m: nat, h: nat, x: int)
    requires Shape(t, m, h)
    ensures Freed(t, x) == Refs(InOrder(t), x)
    decreases h, |t.entries| + 1
  {
    if h > 0 {
      var n := |t.entries|;
      FreedBefore(t, n, m, h, x);
      ChildShape(t, n, m, h);
      FreedIsStored(t.children[n], m, h - 1, x);
      RefsConcat(Before(t, n), InOrder(t.children[n]), x);
      assert t.entries[..n] == t.entries;
    }
  }

  /** An insertion retains the key once and the value once. */
  lemma AddRetains(s: Store, e: Entry, m: nat, x: int)
    requires Valid(s, m)
    ensures Refs(InOrder(Add(s, e, m).root), x) == Refs(InOrder(s.root), x) + Mentions(e, x)
  {
    InsertKeeps(s.root, e, m, s.height);
    var old', u := InOrder(s.root), Insert(s.root, e, m, s.height).0;
    var p: nat :| Inserts(s.root, u, e, p);
    InsertedRefs(old', e, p, x);
  }

  lemma InsertedRefs(s: seq<Entry>, e: Entry, p: nat, x: int)
    requires p <= |s|
    ensures Refs(InsertedAt(s, e, p), x) == Refs(s, x) + Mentions(e, x)
  {
    assert s == s[..p] + s[p..];
    RefsConcat(s[..p], s[p..], x);
    RefsConcat(s[..p], [e], x);
    RefsConcat(s[..p] + [e], s[p..], x);
    RefsOne(e, x);
  }

  lemma {:induction false} SequenceRetains(s: Store, es: seq<Entry>, m: nat, x: int)
    requires Valid(s, m)
    ensures Refs(InOrder(AddAll(s, es, m).root), x) == Refs(InOrder(s.root), x) + Refs(es, x)
    decreases |es|
  {
    if es != [] {
      AddKeeps(s, es[0], m);
      AddRetains(s, es[0], m, x);
      SequenceRetains(Add(s, es[0], m), es[1..], m, x);
    }
  }

  /** After any insertions, clear releases each object exactly as often as the insertions retained it. */
  lemma ClearReleasesAll(es: seq<Entry>, m: nat, x: int)
    requires m >= 2
    ensures Valid(Empty(), m) && Freed(AddAll(Empty(), es, m).root, x) == Refs(es, x)
  {
    EverySequence(Empty(), es, m);
    SequenceRetains(Empty(), es, m, x);
    var s := AddAll(Empty(), es, m);
    FreedIsStored(s.root, m, s.height, x);
  }

  // ---------------------------------------------------------------- how much a tree of a given height holds

  function Pow(m: nat, h: nat): nat {
    if h == 0 then 1 else m * Pow(m, h - 1)
  }

  lemma {:induction false} CountBefore(t: Tree, i: nat, m: nat, h: nat)
    requires h > 0 && Shape(t, m, h) && i <= |t.entries|
    ensures |Before(t, i)| >= i * Pow(m, h)
    decreases h, i
  {
    if i > 0 {
      CountBefore(t, i - 1, m, h);
      ChildShape(t, i - 1, m, h);
      CountBelow(t.children[i - 1], m, h - 1);
      assert (i - 1) * Pow(m, h) + Pow(m, h) == i * Pow(m, h);
    }
  }

  lemma {:induction false} CountNode(t: Tree, m: nat, h: nat)
    requires h > 0 && Shape(t, m, h)
    ensures |InOrder(t)| >= (|t.entries| + 1) * Pow(m, h) - 1
    decreases h, |t.entries| + 1
  {
    var n := |t.entries|;
    CountBefore(t, n, m, h);
    ChildShape(t, n, m, h);
    CountBelow(t.children[n], m, h - 1);
    assert n * Pow(m, h) + Pow(m, h) == (n + 1) * Pow(m, h);
  }

  /** Below the root: at least m^(h+1) - 1 entries. */
  lemma {:induction false} CountBelow(t: Tree, m: nat, h: nat)
    requires Shape(t, m, h) && |t.entries| >= m - 1
    ensures |InOrder(t)| >= Pow(m, h + 1) - 1
    decreases h, |t.entries| + 2
  {
    if h == 0 {
      assert Pow(m, 1) == m * Pow(m, 0) == m;
    } else {
      CountNode(t, m, h);
      MulAtLeast(|t.entries| + 1, m, Pow(m, h));
      assert Pow(m, h + 1) == m * Pow(m, h);
    }
  }

  lemma MulAtLeast(a: nat, b: nat, p: nat)
    requires a >= b
    ensures a * p >= b * p
  {
  }

  /** A tree of height h holds at least 2 m^h - 1 entries, so its height is logarithmic in its size. */
  lemma HeightBound(s: Store, m: nat)
    requires Valid(s, m) && s.height >= 1
    ensures s.size >= 2 * Pow(m, s.height) - 1
  {
    CountNode(s.root, m, s.height);
    MulAtLeast(|s.root.entries| + 1, 2, Pow(m, s.height));
  }
}
