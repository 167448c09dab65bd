/**
 The mutable nodes of src/btree.c: arrays shifted in place, a full child carved in two, its middle entry moved
 up.  Each step changes the lists of entries and children exactly as SplitChild and InsertNonFull of BTree do.
 */
module BTreeNodes {
  import opened BTree

  /** The first `n` elements make room for `x` at place `i`: the later ones move one place up, last one first. */
  method PutAt<T>(a: array<T>, n: nat, i: nat, x: T)
    requires i <= n < a.Length
    modifies a
    ensures a[..n + 1] == old(a[..i]) + [x] + old(a[i..n])
  {
    var j := n;
    while j > i
      invariant i <= j <= n
      invariant forall k :: 0 <= k <= j ==> a[k] == old(a[k])
      invariant forall k :: j < k <= n ==> a[k] == old(a[k - 1])
    {
      a[j] := a[j - 1];
      j := j - 1;
    }
    a[i] := x;
  }

  /** Copy `n` elements of `src` from position `off` to the front of `dst`. */
  method CopyTail<T>(dst: array<T>, src: array<T>, off: nat, n: nat)
    requires dst != src && off + n <= src.Length && n <= dst.Length
    modifies dst
    ensures dst[..n] == src[off..off + n]
  {
    for j := 0 to n
      invariant forall k :: 0 <= k < j ==> dst[k] == src[off + k]
    {
      dst[j] := src[j + off];
    }
  }

  /** The entries that parallel lists of keys and values stand for. */
  function Pairs(ks: seq<int>, vs: seq<int>): (s: seq<Entry>)
    requires |ks| == |vs|
    ensures |s| == |ks|
  {
    seq(|ks|, k requires 0 <= k < |ks| => Entry(ks[k], vs[k]))
  }

  lemma PairsInserted(ks: seq<int>, vs: seq<int>, i: nat, key: int, value: int)
    requires |ks| == |vs| && i <= |ks|
    ensures Pairs(ks[..i] + [key] + ks[i..], vs[..i] + [value] + vs[i..])
         == InsertedAt(Pairs(ks, vs), Entry(key, value), i)
  {
  }

  lemma PairsSlice(ks: seq<int>, vs: seq<int>, lo: nat, hi: nat)
    requires |ks| == |vs| && lo <= hi <= |ks|
    ensures Pairs(ks[lo..hi], vs[lo..hi]) == Pairs(ks, vs)[lo..hi]
  {
  }

  class BTreeNode {
    const m: nat
    const keys: array<int>
    const values: array<int>
    const children: array<BTreeNode?>
    const isLeaf: bool
    var numKeys: nat
    ghost const height: nat               // distance to the leaves
    ghost var tree: Tree                  // the tree below this node
    ghost var parent: BTreeNode?

    constructor (m: nat, isLeaf: bool, ghost height: nat)
      requires m >= 2
      ensures this.m == m && this.isLeaf == isLeaf && this.height == height && numKeys == 0 && Valid()
      ensures tree == Node([], [])
      ensures fresh(keys) && fresh(values) && fresh(children)
    {
      this.m, this.isLeaf, this.height, numKeys := m, isLeaf, height, 0;
      tree, parent := Node([], []), null;
      keys, values := new int[2 * m - 1], new int[2 * m - 1];
      children := new BTreeNode?[2 * m](_ => null);
    }

    ghost predicate Valid()
      reads this
    {
      && m >= 2 && keys.Length == values.Length == 2 * m - 1 && children.Length == 2 * m && keys != values
      && numKeys <= 2 * m - 1
    }

    /** The entries in use. */
    ghost function Entries(): (s: seq<Entry>)
      reads this, keys, values
      requires Valid()
    {
      Pairs(keys[..numKeys], values[..numKeys])
    }

    /** The children in use. */
    ghost function Kids(): seq<BTreeNode?>
      reads this, children
      requires Valid()
    {
      if isLeaf then [] else children[..numKeys + 1]
    }

    /** An entry takes place `i`; the later ones move up. */
    method PutEntry(i: nat, key: int, value: int)
      requires Valid() && i <= numKeys < 2 * m - 1
      modifies this`numKeys, keys, values
      ensures Valid() && numKeys == old(numKeys) + 1
      ensures Entries() == InsertedAt(old(Entries()), Entry(key, value), i)
    {
      ghost var ks, vs := keys[..numKeys], values[..numKeys];
      PutAt(keys, numKeys, i, key);
      PutAt(values, numKeys, i, value);
      numKeys := numKeys + 1;
      assert keys[..numKeys] == ks[..i] + [key] + ks[i..];
      assert values[..numKeys] == vs[..i] + [value] + vs[i..];
      PairsInserted(ks, vs, i, key, value);
    }

    /** The scan of BTree_insert_non_full, from the last key down. */
    method FindSlot(key: int) returns (i: nat)
      requires Valid()
      ensures i == Slot(Entries(), key, numKeys)
    {
      i := numKeys;
      while i > 0 && keys[i - 1] > key
        invariant i <= numKeys && Slot(Entries(), key, i) == Slot(Entries(), key, numKeys)
      {
        assert Entries()[i - 1].key == keys[i - 1];
        i := i - 1;
      }
      assert i > 0 ==> Entries()[i - 1].key == keys[i - 1];
    }

    /** BTree_insert_non_full on a leaf. */
    method InsertInLeaf(key: int, value: int)
      requires Valid() && isLeaf && numKeys < 2 * m - 1
      modifies this`numKeys, keys, values
      ensures Valid() && Kids() == []
      ensures Entries() == InsertedAt(old(Entries()), Entry(key, value), Slot(old(Entries()), key, old(numKeys)))
    {
      var i := FindSlot(key);
      PutEntry(i, key, value);
    }

    /** This node, empty so far, takes copies of the right half of the full node `y`. */
    method TakeRightHalf(y: BTreeNode)
      requires Valid() && y.Valid() && y.m == m && y.isLeaf == isLeaf && y.numKeys == 2 * m - 1
      requires {y.keys, y.values} !! {keys, values} && y.children != children
      modifies this`numKeys, keys, values, children
      ensures Valid() && numKeys == m - 1 && Entries() == y.Entries()[m..]
      ensures !isLeaf ==> Kids() == y.Kids()[m..]
    {
      ghost var ks, vs := y.keys[..2 * m - 1], y.values[..2 * m - 1];
      numKeys := m - 1;
      CopyTail(keys, y.keys, m, m - 1);
      CopyTail(values, y.values, m, m - 1);
      assert keys[..m - 1] == ks[m..2 * m - 1] && values[..m - 1] == vs[m..2 * m - 1];
      PairsSlice(ks, vs, m, 2 * m - 1);
      if !isLeaf {
        CopyTail(children, y.children, m, m);
      }
    }

    /** Only the left half of a full node stays counted; the middle entry keeps its slot. */
    method DropRightHalf()
      requires Valid() && numKeys == 2 * m - 1
      modifies this`numKeys
      ensures Valid() && numKeys == m - 1
      ensures Entries() == old(Entries())[..m - 1] && Entry(keys[m - 1], values[m - 1]) == old(Entries())[m - 1]
      ensures !isLeaf ==> Kids() == old(Kids())[..m]
    {
      ghost var ks, vs := keys[..numKeys], values[..numKeys];
      numKeys := m - 1;
      assert keys[..m - 1] == ks[0..m - 1] && values[..m - 1] == vs[0..m - 1];
      PairsSlice(ks, vs, 0, m - 1);
    }

    /** A full node is carved in two. */
    method Carve() returns (z: BTreeNode)
      requires Valid() && numKeys == 2 * m - 1
      modifies this`numKeys
      ensures fresh(z) && fresh(z.keys) && fresh(z.values) && fresh(z.children)
      ensures Valid() && z.Valid() && z.m == m && z.isLeaf == isLeaf && z.height == height && numKeys == m - 1
      ensures Entries() == old(Entries())[..m - 1] && z.Entries() == old(Entries())[m..]
      ensures Entry(keys[m - 1], values[m - 1]) == old(Entries())[m - 1]
      ensures !isLeaf ==> Kids() == old(Kids())[..m] && z.Kids() == old(Kids())[m..]
    {
      z := new BTreeNode(m, isLeaf, height);
      z.TakeRightHalf(this);
      DropRightHalf();
    }

    /** The list of children makes room for `z` right after child `i`. */
    method PutChild(i: nat, z: BTreeNode)
      requires Valid() && !isLeaf && i <= numKeys < 2 * m - 1
      modifies children
      ensures children[..numKeys + 2] == old(Kids())[..i + 1] + [z] + old(Kids())[i + 1..]
    {
      PutAt(children, numKeys + 1, i + 1, z);
    }

    /** BTree_split_child: the full child `i` is carved in two and its middle entry moves up into this node. */
    method SplitChild(i: nat, y: BTreeNode) returns (z: BTreeNode)
      requires Valid() && !isLeaf && i <= numKeys < 2 * m - 1
      requires y.Valid() && y.m == m && y.numKeys == 2 * m - 1 && y != this && children[i] == y
      requires {y.keys, y.values} !! {keys, values} && y.children != children
      modifies this`numKeys, keys, values, children, y`numKeys
      ensures fresh(z) && fresh(z.keys) && fresh(z.values) && fresh(z.children)
      ensures z.Valid() && z.m == m && z.isLeaf == y.isLeaf && z.height == y.height
      ensures Valid() && y.Valid() && numKeys == old(numKeys) + 1 && y.numKeys == z.numKeys == m - 1
      ensures Entries() == InsertedAt(old(Entries()), old(y.Entries())[m - 1], i)
      ensures Kids() == old(Kids())[..i + 1] + [z] + old(Kids())[i + 1..]
      ensures y.Entries() == old(y.Entries())[..m - 1] && z.Entries() == old(y.Entries())[m..]
      ensures !y.isLeaf ==> y.Kids() == old(y.Kids())[..m] && z.Kids() == old(y.Kids())[m..]
    {
      z := y.Carve();
      PutChild(i, z);
      PutEntry(i, y.keys[m - 1], y.values[m - 1]);
    }
  }
}
