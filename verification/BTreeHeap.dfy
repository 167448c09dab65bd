/**
 The B-tree of src/btree.c as linked nodes in memory.  Each node carries, as a ghost, the tree it stands for;
 insertion changes the nodes so that the tree at the root changes as BTree says it does.
 */
module BTreeHeap {
  import opened BTree
  import opened BTreeNodes

  /** Two nodes share no array. */
  ghost predicate Private(x: BTreeNode, y: BTreeNode) {
    x.keys != y.values && (x != y ==> x.keys != y.keys && x.values != y.values && x.children != y.children)
  }

  /** Element `i` of a list gives way to two. */
  function Splice<T>(s: seq<T>, i: nat, a: T, b: T): seq<T>
    requires i < |s|
  {
    s[..i] + [a, b] + s[i + 1..]
  }

  /** Where the element at `k` was before. */
  function Place(i: nat, k: int): int {
    if k <= i then k else k - 1
  }

  lemma SpliceAt<T>(s: seq<T>, i: nat, a: T, b: T, k: nat)
    requires i < |s| && k <= |s|
    ensures |Splice(s, i, a, b)| == |s| + 1
    ensures Splice(s, i, a, b)[k] == if k == i then a else if k == i + 1 then b else s[Place(i, k)]
  {
  }

  lemma SpliceIsInsertion<T>(s: seq<T>, i: nat, a: T, b: T)
    requires i < |s| && s[i] == a
    ensures s[..i + 1] + [b] + s[i + 1..] == Splice(s, i, a, b)
  {
  }

  lemma KidElements(z: BTreeNode, kids: seq<BTreeNode?>, t: nat)
    requires z.Valid() && !z.isLeaf && z.numKeys == t - 1 && |kids| == 2 * t && z.Kids() == kids[t..]
    ensures forall k :: 0 <= k < t ==> z.children[k] == kids[t + k]
  {
    forall k | 0 <= k < t ensures z.children[k] == kids[t + k] { assert z.Kids()[k] == kids[t..][k]; }
  }

  /** How the lists of a node grow when its child `i` is split. */
  lemma SplitLists(tree: Tree, i: nat, t: nat)
    requires i < |tree.children| == |tree.entries| + 1 && Full(tree.children[i], t)
    ensures var u, y := BTree.SplitChild(tree, i, t), tree.children[i];
            && u.entries == InsertedAt(tree.entries, y.entries[t - 1], i) && |u.entries| == |tree.entries| + 1
            && u.children == Splice(tree.children, i, LeftHalf(y, t), RightHalf(y, t)) && |u.children| == |tree.children| + 1
  {
  }

  /** Insertion above the leaves: go down one step, insert there. */
  lemma InsertStep(tree: Tree, e: Entry, t: nat, h: nat)
    requires h > 0 && Shape(tree, t, h) && |tree.entries| < 2 * t - 1
    ensures var (u, i) := Descend(tree, e.key, t, h);
            && i < |u.children| && HasRoom(u.children[i], t, h - 1)
            && BTree.InsertNonFull(tree, e, t, h) == Node(u.entries, u.children[i := BTree.InsertNonFull(u.children[i], e, t, h - 1)])
  {
    var (u, i) := Descend(tree, e.key, t, h);
    ChildShape(u, i, t, h);
  }

  lemma AddIs(s: Store, e: Entry, t: nat, tree: Tree, h: nat)
    requires WellFormed(s.root, t, s.height) && (tree, h) == BTree.Insert(s.root, e, t, s.height)
    ensures Add(s, e, t) == Store(tree, h, s.size + 1) && WellFormed(tree, t, h)
  {
    InsertKeeps(s.root, e, t, s.height);
  }

  /** The two ways down from a node. */
  lemma DescendIs(tree: Tree, key: int, t: nat, h: nat, i: nat)
    requires h > 0 && HasRoom(tree, t, h) && i == Slot(tree.entries, key, |tree.entries|)
    ensures i < |tree.children|
    ensures |tree.children[i].entries| != 2 * t - 1 ==> Descend(tree, key, t, h) == (tree, i)
    ensures |tree.children[i].entries| == 2 * t - 1 ==>
              && Full(tree.children[i], t)
              && var u := BTree.SplitChild(tree, i, t);
                 i < |u.entries| && Descend(tree, key, t, h) == (u, if u.entries[i].key < key then i + 1 else i)
  {
    ChildShape(tree, i, t, h);
    if |tree.children[i].entries| == 2 * t - 1 { SplitShape(tree, i, t, h); }
  }

  /** Insertion at the root: a full one is split below a new one first. */
  lemma InsertFullStep(tree: Tree, e: Entry, t: nat, h: nat)
    requires WellFormed(tree, t, h) && |tree.entries| == 2 * t - 1
    ensures Full(tree, t) && HasRoom(Grown(tree, t), t, h + 1)
    ensures BTree.Insert(tree, e, t, h) == (BTree.InsertNonFull(Grown(tree, t), e, t, h + 1), h + 1)
  {
    LiftedHasRoom(tree, t, h);
  }

  class BTreeObject {
    const t: nat
    var root: BTreeNode
    var size: nat
    ghost var nodes: set<BTreeNode>
    ghost var Repr: set<object>

    /** new_BTree: a degree below 2 becomes 2. */
    constructor (degree: int)
      ensures Valid() && t == (if degree < 2 then 2 else degree) && View() == Empty() && fresh(Repr)
    {
      var d := if degree < 2 then 2 else degree;
      var leaf := new BTreeNode(d, true, 0);
      t, root, size := d, leaf, 0;
      nodes, Repr := {leaf}, {leaf, leaf.keys, leaf.values, leaf.children};
      new;
      assert NodeOk(leaf);
    }

    /** What the object stands for. */
    ghost function View(): Store
      reads this`root, this`size, root
    {
      Store(root.tree, root.height, size)
    }

    ghost predicate Valid()
      reads this, Repr, nodes, root
    {
      Ok(root.height) && IsTop(root) && WellFormed(root.tree, t, root.height)
    }

    ghost predicate IsTop(r: BTreeNode)
      reads this`nodes
    {
      r in nodes && forall x :: x in nodes ==> x.height <= r.height
    }

    // -------------------------------------------------------------- nodes and the trees they stand for

    /** The arrays of `x` hold the root of its tree. */
    ghost predicate Holds(x: BTreeNode)
      reads x, x.keys, x.values
    {
      && x.Valid() && x.m == t && (x.isLeaf <==> x.height == 0)
      && x.tree.entries == x.Entries()
      && |x.tree.children| == if x.isLeaf then 0 else x.numKeys + 1
    }

    /** Child `k` stands for subtree `k`, and hangs below `x` only. */
    ghost predicate KidOk(x: BTreeNode, k: int)
      reads this`nodes, x, x.children, nodes
    {
      0 <= k < |x.tree.children| && k < x.children.Length ==>
        var c := x.children[k];
        c in nodes && c.height + 1 == x.height && c.parent == x && c.tree == x.tree.children[k]
    }

    ghost predicate KidsDiffer(x: BTreeNode, j: int, k: int)
      reads x, x.children
    {
      0 <= j < k < |x.tree.children| && k < x.children.Length ==> x.children[j] != x.children[k]
    }

    ghost predicate NodeOk(x: BTreeNode)
      reads this`nodes, x, x.keys, x.values, x.children, nodes
    {
      Holds(x) && (forall k: int :: KidOk(x, k)) && (forall j: int, k: int :: KidsDiffer(x, j, k))
    }

    ghost predicate Owns(x: BTreeNode)
      reads this`Repr
    {
      x in Repr && x.keys in Repr && x.values in Repr && x.children in Repr
    }

    ghost predicate NoneShared()
      reads this`nodes
    {
      forall x, y {:trigger Private(x, y)} :: x in nodes && y in nodes ==> Private(x, y)
    }

    ghost predicate AllOwned()
      reads this`nodes, this`Repr
    {
      forall x :: x in nodes ==> Owns(x)
    }

    /** No array is shared, and all nodes of height at most `h` stand for their trees. */
    ghost predicate Ok(h: int)
      reads this, Repr, nodes
    {
      && t >= 2 && this !in Repr
      && AllOwned() && NoneShared()
      && (forall x :: x in nodes && x.height <= h ==> NodeOk(x))
    }

    // -------------------------------------------------------------- what a step leaves alone

    /** What joins the representation has just been allocated. */
    twostate predicate OnlyNew()
      reads this`Repr
    {
      forall o :: o in Repr ==> o in old(Repr) || fresh(o)
    }

    twostate predicate SameBody(x: BTreeNode)
      reads x, x.keys, x.values, x.children
    {
      x.numKeys == old(x.numKeys) && x.tree == old(x.tree) && unchanged(x.keys, x.values, x.children)
    }

    /** `c` now hangs below `p`, with the subtree it had. */
    twostate predicate Kept(c: BTreeNode?, new p: BTreeNode)
      reads c
    {
      c != null && c.parent == p && c.tree == old(c.tree)
    }

    /** A node keeps standing for its tree when it and its children are left alone. */
    twostate lemma OkFrame(x: BTreeNode)
      requires old(NodeOk(x)) && old(nodes) <= nodes && SameBody(x)
      requires forall c :: c in old(nodes) && old(c.parent) == x && c.height + 1 == x.height ==> Kept(c, x)
      ensures NodeOk(x)
    {
      assert Holds(x);
      forall k: int ensures KidOk(x, k) { assert old(KidOk(x, k)); }
      forall j: int, k: int ensures KidsDiffer(x, j, k) { assert old(KidsDiffer(x, j, k)); }
    }

    // -------------------------------------------------------------- splitting a full child

    twostate lemma LeftOk(y: BTreeNode)
      requires old(NodeOk(y)) && old(nodes) <= nodes && Full(old(y.tree), t)
      requires Holds(y) && y.tree == LeftHalf(old(y.tree), t) && unchanged(y.children)
      requires forall k :: 0 <= k < |y.tree.children| ==> Kept(old(y.children[k]), y)
      ensures NodeOk(y)
    {
      forall k: int ensures KidOk(y, k) { assert old(KidOk(y, k)); }
      forall j: int, k: int ensures KidsDiffer(y, j, k) { assert old(KidsDiffer(y, j, k)); }
    }

    twostate lemma RightOk(y: BTreeNode, new z: BTreeNode)
      requires old(NodeOk(y)) && old(nodes) <= nodes && Full(old(y.tree), t)
      requires Holds(z) && z.height == y.height && z.tree == RightHalf(old(y.tree), t)
      requires forall k :: 0 <= k < |z.tree.children| ==> z.children[k] == old(y.children[t + k])
      requires forall k :: 0 <= k < |z.tree.children| ==> Kept(z.children[k], z)
      ensures NodeOk(z)
    {
      forall k: int ensures KidOk(z, k) { assert old(KidOk(y, t + k)); }
      forall j: int, k: int ensures KidsDiffer(z, j, k) { assert old(KidsDiffer(y, t + j, t + k)); }
    }

    /** What a split does to the node above: its child `i` becomes two. */
    twostate predicate Adopts(n: BTreeNode, new i: nat, new y: BTreeNode, new z: BTreeNode)
      reads n, n.children, y, z
    {
      && i < |old(n.tree.children)| < n.children.Length && old(n.children[i]) == y
      && z.height == y.height && z.parent == n && y.parent == n
      && n.tree.children == Splice(old(n.tree.children), i, y.tree, z.tree)
      && n.children[..|old(n.tree.children)| + 1] == Splice(old(n.children[..|n.tree.children|]), i, y, z)
    }

    twostate lemma ParentArray(n: BTreeNode, new i: nat, new y: BTreeNode, new z: BTreeNode, new k: nat)
      requires Adopts(n, i, y, z) && k <= |old(n.tree.children)|
      ensures n.children[k] == if k == i + 1 then z else old(n.children[Place(i, k)])
    {
      SpliceAt(old(n.children[..|n.tree.children|]), i, y, z, k);
      assert n.children[k] == n.children[..|old(n.tree.children)| + 1][k];
    }

    twostate lemma ParentKid(n: BTreeNode, new i: nat, new y: BTreeNode, new z: BTreeNode, new k: int)
      requires old(nodes) <= nodes && z in nodes && Adopts(n, i, y, z)
      requires old(KidOk(n, i) && KidOk(n, Place(i, k)))
      requires forall j :: 0 <= j < |old(n.tree.children)| && j != i ==> Kept(old(n.children[j]), n)
      ensures KidOk(n, k)
    {
      if 0 <= k < |n.tree.children| {
        SpliceAt(old(n.tree.children), i, y.tree, z.tree, k);
        ParentArray(n, i, y, z, k);
      }
    }

    twostate lemma ParentDiffer(n: BTreeNode, new i: nat, new y: BTreeNode, new z: BTreeNode, new j: int, new k: int)
      requires z !in old(nodes) && Adopts(n, i, y, z)
      requires old(KidOk(n, Place(i, j)) && KidOk(n, Place(i, k)) && KidsDiffer(n, Place(i, j), Place(i, k)))
      ensures KidsDiffer(n, j, k)
    {
      if 0 <= j < k < |n.tree.children| {
        ParentArray(n, i, y, z, j);
        ParentArray(n, i, y, z, k);
      }
    }

    twostate lemma ParentOk(n: BTreeNode, new i: nat, new y: BTreeNode, new z: BTreeNode)
      requires old(NodeOk(n)) && Holds(n) && old(nodes) <= nodes && z in nodes && z !in old(nodes)
      requires Adopts(n, i, y, z)
      requires forall k :: 0 <= k < |old(n.tree.children)| && k != i ==> Kept(old(n.children[k]), n)
      ensures NodeOk(n)
    {
      forall k: int ensures KidOk(n, k) {
        assert old(KidOk(n, i) && KidOk(n, Place(i, k)));
        ParentKid(n, i, y, z, k);
      }
      forall j: int, k: int ensures KidsDiffer(n, j, k) {
        assert old(KidOk(n, Place(i, j)) && KidOk(n, Place(i, k)) && KidsDiffer(n, Place(i, j), Place(i, k)));
        ParentDiffer(n, i, y, z, j, k);
      }
    }

    // -------------------------------------------------------------- insertion

    twostate predicate Untouched(x: BTreeNode)
      reads x, x.keys, x.values, x.children
    {
      SameBody(x) && x.parent == old(x.parent)
    }

    /** What happened, happened to `n` and to lower nodes, and nodes that are new are lower. */
    twostate predicate Inside(n: BTreeNode)
      reads *
    {
      && n in nodes && old(nodes) <= nodes && n.parent == old(n.parent)
      && (forall x :: x in nodes && x !in old(nodes) ==> x.height < n.height)
      && (forall x :: x in old(nodes) && x.height >= n.height && x != n ==> Untouched(x))
    }

    /** BTree_insert_non_full on a leaf. */
    method InsertInLeaf(n: BTreeNode, key: int, value: int)
      requires n in nodes && n.isLeaf && Ok(n.height) && Shape(n.tree, t, 0) && n.numKeys < 2 * t - 1
      modifies n`numKeys, n`tree, n.keys, n.values
      ensures Ok(n.height) && n.tree == BTree.InsertNonFull(old(n.tree), Entry(key, value), t, 0)
      ensures forall x :: x in nodes && x != n ==> Untouched(x)
    {
      assert NodeOk(n);
      n.InsertInLeaf(key, value);
      n.tree := Node(n.Entries(), []);
      forall x | x in nodes && x != n ensures Untouched(x) { assert Private(x, n) && Private(n, x); }
      forall x | x in nodes && x.height <= n.height && x != n ensures NodeOk(x) {
        assert old(NodeOk(x));
        OkFrame(x);
      }
      assert NodeOk(n);
    }

    /** BTree_split_child on the arrays of parent, child and new sibling. */
    method CarveArrays(n: BTreeNode, i: nat, y: BTreeNode) returns (z: BTreeNode)
      requires Holds(n) && Holds(y) && Private(n, y) && Private(y, n) && n != y && n.numKeys < 2 * t - 1 && y.numKeys == 2 * t - 1
      requires !n.isLeaf && i <= n.numKeys && n.children[i] == y
      modifies n`numKeys, n.keys, n.values, n.children, y`numKeys
      ensures fresh(z) && fresh(z.keys) && fresh(z.values) && fresh(z.children)
      ensures n.Valid() && y.Valid() && z.Valid() && z.m == t && z.height == y.height && z.isLeaf == y.isLeaf
      ensures n.numKeys == old(n.numKeys) + 1 && y.numKeys == z.numKeys == t - 1
      ensures n.Entries() == InsertedAt(old(n.Entries()), old(y.Entries())[t - 1], i)
      ensures y.Entries() == old(y.Entries())[..t - 1] && z.Entries() == old(y.Entries())[t..]
      ensures n.children[..n.numKeys + 1] == Splice(old(n.children[..n.numKeys + 1]), i, y, z)
      ensures !y.isLeaf ==> forall k :: 0 <= k < t ==> z.children[k] == old(y.children[t + k])
    {
      ghost var kids, ykids := n.Kids(), y.Kids();
      z := n.SplitChild(i, y);
      SpliceIsInsertion(kids, i, y, z);
      if !y.isLeaf {
        KidElements(z, ykids, t);
      }
    }

    /** The same with the trees that the three stand for; the links to parents still wait. */
    method CarveChild(n: BTreeNode, i: nat, y: BTreeNode) returns (z: BTreeNode)
      requires Holds(n) && Holds(y) && Private(n, y) && Private(y, n) && n != y && n.numKeys < 2 * t - 1
      requires i < |n.tree.children| && n.children[i] == y && n.tree.children[i] == y.tree && Full(y.tree, t)
      modifies n`numKeys, n`tree, n.keys, n.values, n.children, y`numKeys, y`tree
      ensures fresh(z) && fresh(z.keys) && fresh(z.values) && fresh(z.children)
      ensures Holds(n) && Holds(y) && Holds(z) && z.height == y.height
      ensures n.tree == BTree.SplitChild(old(n.tree), i, t)
      ensures y.tree == LeftHalf(old(y.tree), t) && z.tree == RightHalf(old(y.tree), t)
      ensures n.children[..|old(n.tree.children)| + 1] == Splice(old(n.children[..|n.tree.children|]), i, y, z)
      ensures forall k :: 0 <= k < |z.tree.children| ==> z.children[k] == old(y.children[t + k])
    {
      z := CarveArrays(n, i, y);
      SplitLists(n.tree, i, t);
      n.tree := BTree.SplitChild(n.tree, i, t);
      z.tree := RightHalf(y.tree, t);
      y.tree := LeftHalf(y.tree, t);
    }

    /** The new node `z` joins the tree below `n`, and the nodes `kids` hang below it. */
    ghost method Link(n: BTreeNode, z: BTreeNode, kids: set<BTreeNode>)
      requires z !in nodes && kids <= nodes
      modifies this`nodes, this`Repr, kids`parent, z`parent
      ensures nodes == old(nodes) + {z} && Repr == old(Repr) + {z, z.keys, z.values, z.children}
      ensures z.parent == n && forall x :: x in kids ==> x.parent == z
    {
      z.parent := n;
      forall c | c in kids {
        c.parent := z;
      }
      nodes, Repr := nodes + {z}, Repr + {z, z.keys, z.values, z.children};
    }

    /** Any other node keeps standing for its tree. */
    twostate lemma OthersOk(x: BTreeNode, new n: BTreeNode, new y: BTreeNode)
      requires n in old(nodes) && y in old(nodes) && x in old(nodes) && old(NodeOk(x)) && old(y.parent) == n && y.height + 1 == n.height
      requires x != n && x != y && x.height <= n.height
      requires old(nodes) <= nodes
      requires forall w :: w in old(nodes) && w != n && w != y ==> SameBody(w)
      requires forall w :: w in old(nodes) && old(w.parent) != y ==> w.parent == old(w.parent)
      ensures NodeOk(x)
    {
      forall c | c in old(nodes) && old(c.parent) == x && c.height + 1 == x.height ensures Kept(c, x) { assert SameBody(c); }
      OkFrame(x);
    }

    /** The children that a full node gives away. */
    lemma RightKids(y: BTreeNode) returns (kids: set<BTreeNode>)
      requires NodeOk(y) && Full(y.tree, t)
      ensures forall x :: x in kids ==> x in nodes && x.parent == y && x.height + 1 == y.height
      ensures forall k :: 0 <= k < |y.tree.children| ==> (y.children[k] in kids <==> k >= t)
    {
      var right := y.children[t..];
      kids := set x | x in nodes && x in right && |y.tree.children| > 0;
      forall x | x in kids ensures x.parent == y && x.height + 1 == y.height {
        var k :| 0 <= k < |right| && right[k] == x;
        assert KidOk(y, t + k);
      }
      forall k | 0 <= k < |y.tree.children| ensures y.children[k] in kids <==> k >= t {
        assert KidOk(y, k);
        if k >= t {
          assert right[k - t] == y.children[k];
        } else {
          forall j | 0 <= j < |right| ensures right[j] != y.children[k] { assert KidsDiffer(y, k, t + j); }
        }
      }
    }

    /** What a split of the full node `y`, child `i` of `n`, does to the nodes. */
    twostate predicate Splits(n: BTreeNode, new i: nat, y: BTreeNode, new z: BTreeNode, new kids: set<BTreeNode>)
      reads this, nodes, n, n.keys, n.values, n.children, y, y.keys, y.values, y.children, z, z.keys, z.values, z.children
    {
      && n in old(nodes) && y in old(nodes) && z !in old(nodes) && nodes == old(nodes) + {z}
      && Holds(n) && Holds(y) && Holds(z) && unchanged(y.children)
      && Full(old(y.tree), t) && y.tree == LeftHalf(old(y.tree), t) && z.tree == RightHalf(old(y.tree), t)
      && Adopts(n, i, y, z)
      && (forall k :: 0 <= k < |z.tree.children| ==> z.children[k] == old(y.children[t + k]))
      && (forall x :: x in old(nodes) ==> x.parent == if x in kids then z else old(x.parent))
      && (forall x :: x in old(nodes) && x != n && x != y ==> x.tree == old(x.tree))
    }

    /** The set of nodes that change their parent: all of them were children of `y`. */
    twostate predicate Leaving(y: BTreeNode, new kids: set<BTreeNode>) {
      && kids <= old(nodes) && (forall x :: x in kids && x in old(nodes) ==> old(x.parent) == y && x.height + 1 == y.height)
      && (forall k :: 0 <= k < |old(y.tree.children)| && k < y.children.Length ==> (old(y.children[k]) in kids <==> k >= t))
    }

    twostate lemma SplitOk(n: BTreeNode, new i: nat, new y: BTreeNode, new z: BTreeNode, new kids: set<BTreeNode>)
      requires y in old(nodes) && old(NodeOk(n) && NodeOk(y)) && y.height + 1 == n.height && old(y.parent) == n
      requires Splits(n, i, y, z, kids) && Leaving(y, kids)
      ensures NodeOk(n) && NodeOk(y) && NodeOk(z)
    {
      forall k | 0 <= k < |y.tree.children| ensures Kept(old(y.children[k]), y) { assert old(KidOk(y, k)); }
      LeftOk(y);
      forall k | 0 <= k < |z.tree.children| ensures Kept(z.children[k], z) { assert old(KidOk(y, t + k)); }
      RightOk(y, z);
      forall k | 0 <= k < |old(n.tree.children)| && k != i ensures Kept(old(n.children[k]), n) {
        assert old(KidOk(n, k));
        assert old(KidsDiffer(n, k, i) && KidsDiffer(n, i, k));
      }
      ParentOk(n, i, y, z);
    }

    /** A new node brings arrays of its own. */
    twostate lemma JoinShared(new z: BTreeNode)
      requires old(NoneShared() && AllOwned()) && z.Valid() && nodes == old(nodes) + {z}
      requires Repr == old(Repr) + {z, z.keys, z.values, z.children}
      requires z.keys !in old(Repr) && z.values !in old(Repr) && z.children !in old(Repr)
      ensures NoneShared() && AllOwned()
    {
      forall x | x in nodes ensures Owns(x) { assert x in old(nodes) ==> old(Owns(x)); }
      forall x, y | x in nodes && y in nodes ensures Private(x, y) {
        assert x in old(nodes) ==> old(Owns(x));
        assert y in old(nodes) ==> old(Owns(y));
      }
    }

    /** The steps of a split, in order. */
    method Divide(n: BTreeNode, i: nat, y: BTreeNode, ghost kids: set<BTreeNode>) returns (z: BTreeNode)
      requires n in nodes && y in nodes && NodeOk(n) && NodeOk(y) && Private(n, y) && Private(y, n) && n.numKeys < 2 * t - 1
      requires i < |n.tree.children| && n.children[i] == y && n.tree.children[i] == y.tree && y.parent == n
      requires Full(y.tree, t) && kids <= nodes && y !in kids
      modifies n`numKeys, n`tree, n.keys, n.values, n.children, y`numKeys, y`tree, this`nodes, this`Repr, kids`parent
      ensures fresh(z) && fresh(z.keys) && fresh(z.values) && fresh(z.children)
      ensures nodes == old(nodes) + {z} && Repr == old(Repr) + {z, z.keys, z.values, z.children}
      ensures n.tree == BTree.SplitChild(old(n.tree), i, t)
      ensures Splits(n, i, y, z, kids)
    {
      SplitLists(n.tree, i, t);
      z := CarveChild(n, i, y);
      Link(n, z, kids);
    }

    /** Nothing else is touched, since no arrays are shared. */
    method SplitApart(n: BTreeNode, i: nat, y: BTreeNode, ghost kids: set<BTreeNode>) returns (z: BTreeNode)
      requires AllOwned() && NoneShared() && t >= 2 && n in nodes && y in nodes && NodeOk(n) && NodeOk(y)
      requires i < |n.tree.children| && n.children[i] == y && n.tree.children[i] == y.tree && y.parent == n
      requires n.numKeys < 2 * t - 1 && Full(y.tree, t) && kids <= nodes && y !in kids
      modifies n`numKeys, n`tree, n.keys, n.values, n.children, y`numKeys, y`tree, this`nodes, this`Repr, kids`parent
      ensures fresh(z) && AllOwned() && NoneShared() && OnlyNew() && (this in Repr ==> this in old(Repr))
      ensures n.tree == BTree.SplitChild(old(n.tree), i, t) && Splits(n, i, y, z, kids)
      ensures forall x :: x in old(nodes) && x != n && x != y ==> SameBody(x)
    {
      assert Private(n, y) && Private(y, n);
      z := Divide(n, i, y, kids);
      JoinShared(z);
      forall x | x in old(nodes) && x != n && x != y ensures SameBody(x) { assert Private(x, n) && Private(n, x); }
    }

    /** BTree_split_child: child `i` of `n` is full. */
    method SplitFull(n: BTreeNode, i: nat)
      requires n in nodes && n.height > 0 && Ok(n.height) && n.numKeys < 2 * t - 1
      requires i < |n.tree.children| && Full(n.tree.children[i], t)
      modifies this`nodes, this`Repr, Repr
      ensures Ok(n.height) && n.tree == BTree.SplitChild(old(n.tree), i, t)
      ensures OnlyNew() && Inside(n)
    {
      assert NodeOk(n) && KidOk(n, i);
      var y := n.children[i];
      assert NodeOk(y);
      ghost var kids := RightKids(y);
      var z := SplitApart(n, i, y, kids);
      SplitOk(n, i, y, z, kids);
      forall x | x in old(nodes) && x != n && x != y && x.height <= n.height ensures NodeOk(x) {
        assert old(NodeOk(x));
        OthersOk(x, n, y);
      }
    }

    /** On the way down: the child to go on with, split first if it is full. */
    method StepDown(n: BTreeNode, key: int) returns (i: nat)
      requires n in nodes && n.height > 0 && Ok(n.height) && HasRoom(n.tree, t, n.height)
      modifies this`nodes, this`Repr, Repr
      ensures Ok(n.height) && (n.tree, i) == Descend(old(n.tree), key, t, n.height)
      ensures OnlyNew() && Inside(n)
    {
      assert NodeOk(n);
      i := n.FindSlot(key);
      DescendIs(n.tree, key, t, n.height, i);
      assert KidOk(n, i);
      var c := n.children[i];
      assert NodeOk(c);
      if c.numKeys == 2 * t - 1 {
        i := SplitAndChoose(n, i, key);
      }
    }

    /** The full child is split, and the key decides between its halves. */
    method SplitAndChoose(n: BTreeNode, i: nat, key: int) returns (j: nat)
      requires n in nodes && n.height > 0 && Ok(n.height) && n.numKeys < 2 * t - 1
      requires i < |n.tree.children| && Full(n.tree.children[i], t)
      modifies this`nodes, this`Repr, Repr
      ensures Ok(n.height) && n.tree == BTree.SplitChild(old(n.tree), i, t) && i < |n.tree.entries|
      ensures j == if n.tree.entries[i].key < key then i + 1 else i
      ensures OnlyNew() && Inside(n)
    {
      assert NodeOk(n);
      SplitLists(n.tree, i, t);
      SplitFull(n, i);
      assert NodeOk(n);
      assert n.tree.entries[i].key == n.keys[i];
      j := if n.keys[i] < key then i + 1 else i;
    }

    /** Below `n`, only the tree of its child `i` has changed; no other node of its height has noticed. */
    twostate lemma Siblings(n: BTreeNode, new i: nat, new c: BTreeNode)
      requires n in old(nodes) && c in old(nodes) && old(nodes) <= nodes && old(Ok(n.height)) && c.height + 1 == n.height
      requires i < |old(n.tree.children)| && old(n.children[i]) == c && c.parent == n == old(c.parent)
      requires forall x :: x in old(nodes) && x.height >= c.height && x != c ==> Untouched(x)
      ensures Holds(n) && n.children[i] == c && n.tree == old(n.tree)
      ensures (forall k: int :: k != i ==> KidOk(n, k)) && (forall j: int, k: int :: KidsDiffer(n, j, k))
      ensures forall x :: x in old(nodes) && x.height == n.height && x != n ==> NodeOk(x)
    {
      assert old(NodeOk(n)) && Untouched(n);
      forall k: int | k != i ensures KidOk(n, k) { assert old(KidOk(n, k) && KidsDiffer(n, i, k) && KidsDiffer(n, k, i)); }
      forall j: int, k: int ensures KidsDiffer(n, j, k) { assert old(KidsDiffer(n, j, k)); }
      forall x | x in old(nodes) && x.height == n.height && x != n ensures NodeOk(x) {
        assert old(NodeOk(x)) && Untouched(x);
        OkFrame(x);
      }
    }

    /** The tree of `n` takes in the new tree of its child `i`. */
    ghost method Graft(n: BTreeNode, i: nat, c: BTreeNode)
      requires AlmostOk(n, i, c)
      modifies n`tree
      ensures Ok(n.height) && n.tree == Node(old(n.tree.entries), old(n.tree.children)[i := c.tree])
    {
      n.tree := Node(n.tree.entries, n.tree.children[i := c.tree]);
      forall x | x in nodes && x.height <= n.height && x != n ensures NodeOk(x) {
        assert old(NodeOk(x));
        OkFrame(x);
      }
      forall k: int ensures KidOk(n, k) { assert k != i ==> old(KidOk(n, k)); }
      forall j: int, k: int ensures KidsDiffer(n, j, k) { assert old(KidsDiffer(n, j, k)); }
    }

    /** All is well but that the tree of `n` does not know the new tree of its child `i`. */
    ghost predicate AlmostOk(n: BTreeNode, i: nat, c: BTreeNode)
      reads this, Repr, nodes, n, n.keys, n.values, n.children, c
    {
      && t >= 2 && this !in Repr && AllOwned() && NoneShared() && n in nodes && c in nodes
      && (forall x :: x in nodes && x.height <= n.height && x != n ==> NodeOk(x))
      && Holds(n) && i < |n.tree.children| && n.children[i] == c && c.height + 1 == n.height && c.parent == n
      && (forall k: int :: k != i ==> KidOk(n, k)) && (forall j: int, k: int :: KidsDiffer(n, j, k))
    }

    /** Insertion into child `i`, after which `n` stands for the tree with the new child. */
    method InsertBelow(n: BTreeNode, i: nat, key: int, value: int)
      requires n in nodes && n.height > 0 && Ok(n.height) && i < |n.tree.children| && HasRoom(n.tree.children[i], t, n.height - 1)
      modifies this`nodes, this`Repr, Repr
      ensures Ok(n.height) && n.tree == Node(old(n.tree.entries), old(n.tree.children)[i :=
                BTree.InsertNonFull(old(n.tree.children[i]), Entry(key, value), t, n.height - 1)])
      ensures OnlyNew() && Inside(n)
      decreases n.height, 1
    {
      assert NodeOk(n) && KidOk(n, i);
      var c := n.children[i];
      assert Owns(n);
      InsertInKid(n, i, c, key, value);
      Graft(n, i, c);
    }

    /** Insertion into the child `c`, of which `n` does not know yet. */
    method InsertInKid(n: BTreeNode, i: nat, c: BTreeNode, key: int, value: int)
      requires n in nodes && n.height > 0 && Ok(n.height) && i < |n.tree.children| && n.children[i] == c
      requires c in nodes && c.parent == n && c.height + 1 == n.height && HasRoom(c.tree, t, c.height)
      modifies this`nodes, this`Repr, Repr
      ensures AlmostOk(n, i, c) && c.tree == BTree.InsertNonFull(old(c.tree), Entry(key, value), t, c.height)
      ensures OnlyNew() && old(nodes) <= nodes && n.tree == old(n.tree) && n.parent == old(n.parent)
      ensures forall x :: x in nodes && x !in old(nodes) ==> x.height < n.height
      ensures forall x :: x in old(nodes) && x.height >= n.height && x != n ==> Untouched(x)
      decreases n.height, 0
    {
      InsertNonFull(c, key, value);
      Siblings(n, i, c);
    }

    /** BTree_insert_non_full above the leaves. */
    method InsertInside(n: BTreeNode, key: int, value: int)
      requires n in nodes && n.height > 0 && Ok(n.height) && HasRoom(n.tree, t, n.height)
      modifies this`nodes, this`Repr, Repr
      ensures Ok(n.height) && n.tree == BTree.InsertNonFull(old(n.tree), Entry(key, value), t, n.height)
      ensures OnlyNew() && Inside(n)
      decreases n.height, 2
    {
      assert NodeOk(n);
      InsertStep(n.tree, Entry(key, value), t, n.height);
      var i := StepDown(n, key);
      InsertBelow(n, i, key, value);
    }

    /** BTree_insert_non_full. */
    method InsertNonFull(n: BTreeNode, key: int, value: int)
      requires n in nodes && Ok(n.height) && HasRoom(n.tree, t, n.height)
      modifies this`nodes, this`Repr, Repr
      ensures Ok(n.height) && n.tree == BTree.InsertNonFull(old(n.tree), Entry(key, value), t, n.height)
      ensures OnlyNew() && Inside(n)
      decreases n.height, 3
    {
      assert NodeOk(n);
      if n.isLeaf {
        InsertInLeaf(n, key, value);
      } else {
        InsertInside(n, key, value);
      }
    }

    // -------------------------------------------------------------- the public calls

    /** A new root above the old one, with no entry of its own yet. */
    method Grow(r: BTreeNode) returns (s: BTreeNode)
      requires IsTop(r) && Ok(r.height)
      modifies this`nodes, this`Repr, r`parent
      ensures IsTop(s) && OnlyNew()
      ensures s.height == r.height + 1 && s.numKeys == 0 && s.tree == Node([], [r.tree]) && Ok(s.height)
    {
      s := NewRoot(r);
      Enthrone(r, s);
    }

    method NewRoot(r: BTreeNode) returns (s: BTreeNode)
      requires t >= 2
      ensures fresh(s) && fresh(s.keys) && fresh(s.values) && fresh(s.children) && Holds(s)
      ensures s.height == r.height + 1 && s.numKeys == 0 && s.children[0] == r && s.tree == Node([], [r.tree])
    {
      s := new BTreeNode(t, false, r.height + 1);
      s.children[0] := r;
      s.tree := Node([], [r.tree]);
    }

    /** The new root joins the nodes. */
    ghost method Enthrone(r: BTreeNode, s: BTreeNode)
      requires IsTop(r) && Ok(r.height) && s !in nodes && s.keys !in Repr && s.values !in Repr && s.children !in Repr && this != s as object
      requires Holds(s) && s.height == r.height + 1 && s.children[0] == r && s.tree == Node([], [r.tree])
      modifies this`nodes, this`Repr, r`parent
      ensures IsTop(s) && Ok(s.height) && Repr == old(Repr) + {s, s.keys, s.values, s.children}
    {
      r.parent := s;
      nodes, Repr := nodes + {s}, Repr + {s, s.keys, s.values, s.children};
      JoinShared(s);
      forall x | x in old(nodes) ensures NodeOk(x) {
        assert old(NodeOk(x));
        OkFrame(x);
      }
      assert NodeOk(s);
    }

    /** A full root becomes the two children of a new one. */
    method GrowFull(r: BTreeNode) returns (s: BTreeNode)
      requires IsTop(r) && Ok(r.height) && Full(r.tree, t)
      modifies this`nodes, this`Repr, Repr
      ensures IsTop(s) && OnlyNew() && s.height == r.height + 1 && Ok(s.height)
      ensures s.tree == Grown(old(r.tree), t)
    {
      assert Owns(r);
      s := Grow(r);
      SplitFull(s, 0);
    }

    /** A root with room. */
    method InsertTop(r: BTreeNode, key: int, value: int)
      requires IsTop(r) && Ok(r.height) && HasRoom(r.tree, t, r.height)
      modifies this`nodes, this`Repr, Repr
      ensures IsTop(r) && Ok(r.height) && OnlyNew()
      ensures r.tree == BTree.InsertNonFull(old(r.tree), Entry(key, value), t, r.height)
    {
      InsertNonFull(r, key, value);
    }

    /** A full root. */
    method InsertFull(r: BTreeNode, key: int, value: int) returns (s: BTreeNode)
      requires IsTop(r) && Ok(r.height) && Full(r.tree, t) && HasRoom(Grown(r.tree, t), t, r.height + 1)
      modifies this`nodes, this`Repr, Repr
      ensures IsTop(s) && Ok(s.height) && OnlyNew() && s.height == r.height + 1
      ensures s.tree == BTree.InsertNonFull(Grown(old(r.tree), t), Entry(key, value), t, s.height)
    {
      s := GrowFull(r);
      InsertTop(s, key, value);
    }

    /** The root after an insertion into the tree below `r`. */
    method InsertRoot(r: BTreeNode, key: int, value: int) returns (s: BTreeNode)
      requires IsTop(r) && Ok(r.height) && WellFormed(r.tree, t, r.height)
      modifies this`nodes, this`Repr, Repr
      ensures IsTop(s) && Ok(s.height) && OnlyNew()
      ensures (s.tree, s.height) == BTree.Insert(old(r.tree), Entry(key, value), t, r.height)
    {
      assert NodeOk(r);
      if r.numKeys == 2 * t - 1 {
        InsertFullStep(r.tree, Entry(key, value), t, r.height);
        s := InsertFull(r, key, value);
      } else {
        s := r;
        InsertTop(r, key, value);
      }
    }

    /** impl_insert. */
    method Insert(key: int, value: int)
      requires Valid()
      modifies this, Repr
      ensures Valid() && OnlyNew() && View() == Add(old(View()), Entry(key, value), t)
    {
      ghost var was := View();
      root := InsertRoot(root, key, value);
      AddIs(was, Entry(key, value), t, root.tree, root.height);
      size := size + 1;
    }

    // -------------------------------------------------------------- freeing

    method ReleaseEntries(n: BTreeNode) returns (released: multiset<int>)
      requires Holds(n)
      ensures forall x: int :: released[x] == Refs(n.tree.entries, x)
    {
      ghost var es := n.tree.entries;
      released := multiset{};
      for i := 0 to n.numKeys
        invariant forall x: int :: released[x] == Refs(es[..i], x)
      {
        released := released + multiset{n.keys[i], n.values[i]};
        assert es[..i + 1] == es[..i] + [es[i]] && es[i] == Entry(n.keys[i], n.values[i]);
        forall x: int ensures released[x] == Refs(es[..i + 1], x) {
          RefsConcat(es[..i], [es[i]], x);
          RefsOne(es[i], x);
        }
      }
      assert es[..n.numKeys] == es;
    }

    /** BTree_free_node: what it releases, as often as the tree below `n` stores it. */
    method FreeNode(n: BTreeNode) returns (released: multiset<int>)
      requires n in nodes && Ok(n.height)
      ensures forall x: int :: released[x] == Freed(n.tree, x)
      decreases n.height
    {
      assert NodeOk(n);
      released := ReleaseEntries(n);
      if !n.isLeaf {
        for i := 0 to n.numKeys + 1
          invariant forall x: int :: released[x] == Refs(n.tree.entries, x) + FreedChildren(n.tree, i, x)
        {
          assert KidOk(n, i);
          var more := FreeNode(n.children[i]);
          released := released + more;
        }
      }
    }

    /** impl_clear: everything stored is released, and a new empty leaf is the root. */
    method Clear() returns (released: multiset<int>)
      requires Valid()
      modifies this
      ensures Valid() && fresh(Repr) && View() == Empty()
      ensures forall x: int :: released[x] == Refs(old(InOrder(root.tree)), x)
    {
      released := FreeNode(root);
      forall x: int ensures released[x] == Refs(InOrder(root.tree), x) { FreedIsStored(root.tree, t, root.height, x); }
      var leaf := new BTreeNode(t, true, 0);
      root, size := leaf, 0;
      nodes, Repr := {leaf}, {leaf, leaf.keys, leaf.values, leaf.children};
      assert NodeOk(leaf);
    }
  }
}
