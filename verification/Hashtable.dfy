/** The mutable table of src/hashtable.c and its iterator: every operation is the operation of a map. */
module Hashtable {
  import opened Common
  import opened B = HashBuckets

  ghost function Lookup<K, V>(m: map<K, V>, k: K): Option<V> {
    if k in m then Some(m[k]) else None
  }

  /** The table holds the map: every key has the same value in both. */
  ghost predicate Represents<K(!new), V>(t: Table<K, V>, h: K -> nat, m: map<K, V>) {
    TableOk(t, h) && forall k: K :: Get(t, h, k) == Lookup(m, k)
  }

  /** A list of distinct keys that says what the map says has as many entries as the map. */
  lemma {:induction false} ListCounts<K(!new), V>(es: Chain<K, V>, m: map<K, V>)
    requires Distinct(es) && forall k: K :: Value(es, k) == Lookup(m, k)
    ensures |es| == |m|
    decreases |es|
  {
    if es == [] {
      forall k ensures k !in m { assert Value(es, k) == Lookup(m, k); }
      EmptyMap(m);
    } else {
      var k := es[0].key;
      DistinctTail(es);
      assert Value(es, k) == Lookup(m, k);
      var m' := map x | x in m && x != k :: m[x];
      assert m.Keys == m'.Keys + {k};
      forall x: K ensures Value(es[1..], x) == Lookup(m', x) { assert Value(es, x) == Lookup(m, x); }
      ListCounts(es[1..], m');
    }
  }

  lemma EmptyMap<K, V>(m: map<K, V>)
    requires forall k :: k !in m
    ensures |m| == 0
  {
    assert m == map[];
  }

  /** Walking all buckets meets every entry of the map exactly once and nothing else. */
  lemma WalkIsMap<K(!new), V>(t: Table<K, V>, h: K -> nat, m: map<K, V>)
    requires Represents(t, h, m)
    ensures Distinct(Flatten(t)) && |Flatten(t)| == |m| && forall k: K :: Value(Flatten(t), k) == Lookup(m, k)
  {
    assert t[0..] == t;
    FlattenOk(t, h, 0);
    forall k: K ensures Value(Flatten(t), k) == Lookup(m, k) { FlattenIsGet(t, h, k); }
    ListCounts(Flatten(t), m);
  }

  /** Replacing one chain by another that differs only in what it says about `k`. */
  lemma ReplaceChain<K(!new), V>(t: Table<K, V>, h: K -> nat, m: map<K, V>, k: K, c: Chain<K, V>, m': map<K, V>)
    requires Represents(t, h, m) && BucketOk(c, h, h(k) % |t|, |t|)
    requires forall x: K :: x != k ==> Value(c, x) == Value(t[h(k) % |t|], x)
    requires Value(c, k) == Lookup(m', k) && forall x: K :: x != k ==> Lookup(m', x) == Lookup(m, x)
    ensures Represents(t[h(k) % |t| := c], h, m')
  {
    var i := h(k) % |t|;
    var u := t[i := c];
    assert TableOk(u, h);
    forall x: K ensures Get(u, h, x) == Lookup(m', x) {
      BucketValue(u, h, x);
      BucketValue(t, h, x);
      assert Get(t, h, x) == Lookup(m, x);
    }
  }

  lemma SetBucket<K, V>(c: Chain<K, V>, h: K -> nat, k: K, v: V, i: int, n: nat)
    requires n > 0 && BucketOk(c, h, i, n)
    ensures BucketOk(SetIn(c, h(k), k, v), h, i, n)
  {
    SetInValue(c, h, k, v, k);
    SetInDistinct(c, h, k, v);
  }

  lemma {:induction false} DropBucket<K, V>(c: Chain<K, V>, h: K -> nat, k: K, i: int, n: nat)
    requires n > 0 && BucketOk(c, h, i, n)
    ensures BucketOk(DropFrom(c, h(k), k), h, i, n)
  {
    DropValue(c, h, k, k);
    DropSubset(c, h(k), k, i, n);
  }

  lemma DropRepresents<K(!new), V>(t: Table<K, V>, h: K -> nat, m: map<K, V>, k: K, i: nat, m': map<K, V>)
    requires Represents(t, h, m) && |t| > 0 && i == h(k) % |t| && k in m && m' == map x | x in m && x != k :: m[x]
    ensures Represents(t[i := DropFrom(t[i], h(k), k)], h, m') && |m'| == |m| - 1
  {
    DropBucket(t[i], h, k, i, |t|);
    var c := DropFrom(t[i], h(k), k);
    forall x: K ensures Value(c, x) == if x == k then None else Value(t[i], x) { DropValue(t[i], h, k, x); }
    ReplaceChain(t, h, m, k, c, m');
    assert m.Keys == m'.Keys + {k};
  }

  lemma {:induction false} DropSubset<K, V>(c: Chain<K, V>, hash: nat, k: K, i: int, n: nat)
    requires n > 0 && forall j :: 0 <= j < |c| ==> c[j].hash % n == i
    ensures forall j :: 0 <= j < |DropFrom(c, hash, k)| ==> DropFrom(c, hash, k)[j].hash % n == i
  {
    if c != [] && !(c[0].hash == hash && c[0].key == k) { DropSubset(c[1..], hash, k, i, n); }
  }

  /** The entries are the same ones in the same order; their values may have been replaced. */
  ghost predicate SameKeys<K, V>(c: Chain<K, V>, d: Chain<K, V>) {
    |c| == |d| && forall j :: 0 <= j < |c| ==> c[j].key == d[j].key
  }

  class Hashtable<K(==, !new), V> {
    const h: K -> nat
    const loadFactor: real
    var table: array<Chain<K, V>>
    var count: nat
    var threshold: nat
    var modCount: nat
    ghost var m: map<K, V>
    ghost var held: multiset<K>      // references to keys that the table holds

    ghost predicate Valid()
      reads this, table
    {
      && loadFactor > 0.0 && Represents(table[..], h, m) && count == |m|
      && forall k: K :: held[k] == Bit(k in m)
    }

    constructor (h: K -> nat, capacity: nat, loadFactor: real)
      ensures Valid() && fresh(table) && m == map[] && this.h == h && table.Length == if capacity == 0 then 11 else capacity
    {
      var cap := if capacity == 0 then 11 else capacity;
      var factor := if loadFactor <= 0.0 then 0.75 else loadFactor;
      this.h, this.loadFactor := h, factor;
      table := new Chain<K, V>[cap](_ => []);
      count, modCount, m, held := 0, 0, map[], multiset{};
      threshold := (cap as real * factor).Floor;
    }

    /** rehash. */
    method Grow()
      requires Valid()
      modifies this`table, this`threshold, this`modCount
      ensures Valid() && fresh(table) && table.Length == 2 * old(table.Length) + 1 && modCount == old(modCount) + 1
    {
      RehashIs(table[..], h);
      table := Rebuilt(table);
      threshold := (table.Length as real * loadFactor).Floor;
      modCount := modCount + 1;
    }

    method Get(k: K) returns (r: Option<V>)
      requires Valid()
      ensures r == Lookup(m, k)
    {
      r := Scan(table[h(k) % table.Length], h(k), k);
    }

    /** ht_put on a table that has been grown if it had to be. */
    method Store(k: K, v: V) returns (r: Option<V>)
      requires Valid()
      modifies this`count, this`modCount, this`m, this`held, table
      ensures Valid() && m == old(m)[k := v] && r == Lookup(old(m), k)
      ensures modCount == old(modCount) + Bit(k !in old(m))
      ensures modCount == old(modCount) ==> forall j :: 0 <= j < table.Length ==> SameKeys(table[j], old(table[j]))
    {
      var i := h(k) % table.Length;
      ghost var t := table[..];
      r := Scan(table[i], h(k), k);
      assert B.Get(t, h, k) == Lookup(m, k);
      BucketValue(t, h, k);
      if r.Some? {
        var c := SetIn(table[i], h(k), k, v);
        SetBucket(t[i], h, k, v, i, |t|);
        forall x: K ensures Value(c, x) == if x == k then Some(v) else Value(t[i], x) { SetInValue(t[i], h, k, v, x); }
        SetInValue(t[i], h, k, v, k);
        ReplaceChain(t, h, m, k, c, m[k := v]);
        table[i] := c;
        assert table[..] == t[i := c];
        assert m[k := v].Keys == m.Keys;
        m := m[k := v];
      } else {
        var e := Entry(k, h(k), v);
        PushIs(t, h, e);
        table[i] := [e] + table[i];
        assert table[..] == Push(t, e);
        assert m[k := v].Keys == m.Keys + {k};
        held := held + multiset{k};
        m := m[k := v];
        count := count + 1;
        modCount := modCount + 1;
      }
    }

    /** ht_put: the old value, if any, goes to the caller; the key is retained only when it is new. */
    method Put(k: K, v: V) returns (r: Option<V>)
      requires Valid()
      modifies this, table
      ensures Valid() && m == old(m)[k := v] && r == Lookup(old(m), k)
      ensures modCount >= old(modCount) + Bit(k !in old(m))
      ensures modCount == old(modCount) ==>
                table == old(table) && forall j :: 0 <= j < table.Length ==> SameKeys(table[j], old(table[j]))
    {
      if count >= threshold {
        Grow();
      }
      r := Store(k, v);
    }

    /** ht_remove. */
    method Remove(k: K) returns (r: Option<V>)
      requires Valid()
      modifies this`count, this`modCount, this`m, this`held, table
      ensures Valid() && m == map x | x in old(m) && x != k :: old(m)[x]
      ensures r == Lookup(old(m), k) && modCount == old(modCount) + Bit(k in old(m))
    {
      var i := h(k) % table.Length;
      ghost var t, m' := table[..], map x | x in m && x != k :: m[x];
      r := Scan(table[i], h(k), k);
      assert B.Get(t, h, k) == Lookup(m, k);
      if r.None? {
        assert m' == m;
        return;
      }
      var c := DropFrom(table[i], h(k), k);
      DropRepresents(t, h, m, k, i, m');
      table[i] := c;
      assert table[..] == t[i := c];
      held := held - multiset{k};
      m := m';
      count := count - 1;
      modCount := modCount + 1;
    }

    /** ht_clear. */
    method Clear()
      requires Valid()
      modifies this`count, this`modCount, this`m, this`held, table
      ensures Valid() && m == map[] && modCount == old(modCount) + 1
    {
      for i := 0 to table.Length
        invariant modCount == old(modCount) && forall j :: 0 <= j < i ==> table[j] == []
      {
        table[i] := [];
      }
      assert table[..] == Empty(table.Length);
      held := multiset{};
      m := map[];
      count := 0;
      modCount := modCount + 1;
    }
  }

  /** The scan loop of get, put and remove. */
  method Scan<K(==), V>(c: Chain<K, V>, hash: nat, k: K) returns (r: Option<V>)
    ensures r == Find(c, hash, k)
  {
    var rest := c;
    while rest != []
      invariant Find(rest, hash, k) == Find(c, hash, k)
      decreases |rest|
    {
      if rest[0].hash == hash && rest[0].key == k {
        return Some(rest[0].value);
      }
      rest := rest[1..];
    }
    return None;
  }

  /** The loops of rehash: bucket by bucket into a table of 2n+1 buckets. */
  method Rebuilt<K, V>(oldTable: array<Chain<K, V>>) returns (newTable: array<Chain<K, V>>)
    ensures fresh(newTable) && newTable.Length == 2 * oldTable.Length + 1 && newTable[..] == Rehash(oldTable[..])
  {
    ghost var t := oldTable[..];
    newTable := new Chain<K, V>[2 * oldTable.Length + 1](_ => []);
    assert newTable[..] == Empty(2 * |t| + 1);
    assert t[0..] == t;
    for i := 0 to oldTable.Length
      invariant newTable.Length == 2 * oldTable.Length + 1 && oldTable[..] == t
      invariant PushAll(Flatten(t[i..]), newTable[..]) == Rehash(t)
    {
      assert t[i..][0] == oldTable[i] && t[i..][1..] == t[i + 1..];
      MoveChain(oldTable[i], newTable, Flatten(t[i + 1..]));
    }
    assert t[|t|..] == [];
  }

  /** The inner loop of rehash: each entry of a chain goes to the head of its new one. */
  method MoveChain<K, V>(c: Chain<K, V>, newTable: array<Chain<K, V>>, ghost rest: Chain<K, V>)
    requires newTable.Length > 0
    modifies newTable
    ensures PushAll(rest, newTable[..]) == PushAll(c + rest, old(newTable[..]))
  {
    var e := c;
    ghost var goal := PushAll(c + rest, newTable[..]);
    while e != []
      invariant PushAll(e + rest, newTable[..]) == goal
      decreases |e|
    {
      ghost var t := newTable[..];
      assert (e + rest)[0] == e[0] && (e + rest)[1..] == e[1..] + rest;
      var i := e[0].hash % newTable.Length;
      newTable[i] := [e[0]] + newTable[i];
      assert newTable[..] == Push(t, e[0]);
      e := e[1..];
    }
    assert e + rest == rest;
  }

  // ---------------------------------------------------------------- iteration

  class TableIterator<K(==, !new), V> {
    const ht: Hashtable<K, V>
    var bucket: nat               // the next bucket to look into
    var more: bool                // whether there is an entry to be returned next
    var pos: nat                  // its place in the chain of the bucket before
    const expected: nat

    /** The position is one of the table. */
    ghost predicate InPlace()
      reads this, ht, ht.table
    {
      && bucket <= ht.table.Length
      && (if more then bucket > 0 && pos < |ht.table[bucket - 1]| else bucket == ht.table.Length)
    }

    /** While the table has not changed, the position is good; afterwards nothing is asked of it. */
    ghost predicate Valid()
      reads this, ht, ht.table
    {
      expected <= ht.modCount && (expected == ht.modCount ==> InPlace())
    }

    /** What is still to come, with the values that the entries have now. */
    ghost function Remaining(): Chain<K, V>
      reads this, ht, ht.table
      requires InPlace()
    {
      (if more then ht.table[bucket - 1][pos..] else []) + Flatten(ht.table[bucket..])
    }

    constructor (ht: Hashtable<K, V>)
      ensures Valid() && this.ht == ht && expected == ht.modCount && Remaining() == Flatten(ht.table[..])
    {
      this.ht, bucket, more, pos, expected := ht, 0, false, 0, ht.modCount;
      new;
      assert ht.table[0..] == ht.table[..];
      Advance();
    }

    /** On to the next bucket that is not empty. */
    method Advance()
      requires bucket <= ht.table.Length
      modifies this`bucket, this`more, this`pos
      ensures InPlace() && Remaining() == Flatten(old(ht.table[bucket..]))
    {
      more, pos := false, 0;
      ghost var t := ht.table[..];
      ghost var goal := Flatten(t[bucket..]);
      assert ht.table[bucket..] == t[bucket..];
      while bucket < ht.table.Length
        invariant bucket <= ht.table.Length && !more && pos == 0 && Flatten(t[bucket..]) == goal
        decreases ht.table.Length - bucket
      {
        assert t[bucket..][0] == ht.table[bucket] && t[bucket..][1..] == t[bucket + 1..];
        bucket := bucket + 1;
        if ht.table[bucket - 1] != [] {
          more := true;
          assert ht.table[bucket..] == t[bucket..] && ht.table[bucket - 1][0..] == ht.table[bucket - 1];
          return;
        }
        assert [] + Flatten(t[bucket..]) == Flatten(t[bucket..]);
      }
      assert ht.table[bucket..] == t[bucket..] && [] + Flatten(t[bucket..]) == Flatten(t[bucket..]);
    }

    /** it_next: nothing once the table has been changed. */
    method Next() returns (r: Option<Entry<K, V>>)
      requires Valid()
      modifies this`bucket, this`more, this`pos
      ensures Valid() && (ht.modCount != expected ==> r == None)
      ensures ht.modCount == expected ==>
                if old(Remaining()) == [] then r == None && Remaining() == []
                else r == Some(old(Remaining())[0]) && Remaining() == old(Remaining())[1..]
    {
      if ht.modCount != expected {
        return None;
      }
      if !more {
        assert ht.table[bucket..] == [];
        return None;
      }
      r := Some(ht.table[bucket - 1][pos]);
      ChainTail(ht.table[bucket - 1], pos, Flatten(ht.table[bucket..]));
      if pos + 1 < |ht.table[bucket - 1]| {
        pos := pos + 1;
      } else {
        Advance();
      }
    }

    /** Putting during an iteration: a value that is replaced is seen by the iterator, anything else ends it. */
    method PutMeanwhile(k: K, v: V)
      requires Valid() && ht.Valid()
      modifies ht, ht.table
      ensures Valid() && ht.Valid() && ht.m == old(ht.m)[k := v] && (k !in old(ht.m) ==> ht.modCount != expected)
      ensures ht.modCount == expected ==> InPlace() && old(InPlace()) && SameKeys(Remaining(), old(Remaining()))
    {
      ghost var t := ht.table[..];
      var _ := ht.Put(k, v);
      if ht.modCount == expected {
        ghost var u := ht.table[..];
        forall j | 0 <= j < |t| ensures SameKeys(u[j], t[j]) { }
        assert ht.table[bucket..] == u[bucket..] && old(ht.table[bucket..]) == t[bucket..];
        FlattenKeys(u[bucket..], t[bucket..]);
      }
    }
  }

  lemma ChainTail<K, V>(c: Chain<K, V>, i: nat, rest: Chain<K, V>)
    requires i < |c|
    ensures (c[i..] + rest)[0] == c[i] && (c[i..] + rest)[1..] == c[i + 1..] + rest && (i + 1 == |c| ==> c[i + 1..] + rest == rest)
  {
  }

  lemma {:induction false} FlattenKeys<K, V>(t: Table<K, V>, u: Table<K, V>)
    requires |t| == |u| && forall j :: 0 <= j < |t| ==> SameKeys(t[j], u[j])
    ensures SameKeys(Flatten(t), Flatten(u))
  {
    if t != [] { FlattenKeys(t[1..], u[1..]); }
  }

  lemma OneMore<K, V>(out: Chain<K, V>, rest: Chain<K, V>)
    requires rest != []
    ensures out + [rest[0]] + rest[1..] == out + rest
  {
  }

  /** Iterating over an unchanged table yields every entry of the map exactly once. */
  method Collect<K(==, !new), V>(ht: Hashtable<K, V>) returns (out: Chain<K, V>)
    requires ht.Valid()
    ensures Distinct(out) && |out| == |ht.m| && forall k: K :: Value(out, k) == Lookup(ht.m, k)
  {
    var it := new TableIterator(ht);
    out := [];
    ghost var rest := it.Remaining();
    WalkIsMap(ht.table[..], ht.h, ht.m);
    while true
      invariant it.Valid() && it.ht == ht && it.expected == ht.modCount && it.InPlace() && rest == it.Remaining()
      invariant out + rest == Flatten(ht.table[..])
      decreases |rest|
    {
      var e := it.Next();
      if e.None? {
        assert rest == [] && out + [] == out;
        return;
      }
      OneMore(out, rest);
      out := out + [e.value];
      rest := it.Remaining();
    }
  }
}
