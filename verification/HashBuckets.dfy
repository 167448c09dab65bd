/**
 The chained table of src/hashtable.c as a map: buckets by hash modulo capacity, rehashing into 2n+1 buckets, and a
 fail-fast iterator.
 */
module HashBuckets {
  import opened Common

  datatype Entry<K, V> = Entry(key: K, hash: nat, value: V)

  type Chain<K, V> = seq<Entry<K, V>>
  type Table<K, V> = seq<Chain<K, V>>

  // ---------------------------------------------------------------- chains

  /** The scan along a chain: first the hash is compared, then the key. */
  function Find<K(==), V>(c: Chain<K, V>, hash: nat, k: K): Option<V> {
    if c == [] then None else if c[0].hash == hash && c[0].key == k then Some(c[0].value) else Find(c[1..], hash, k)
  }

  function SetIn<K(==), V>(c: Chain<K, V>, hash: nat, k: K, v: V): Chain<K, V> {
    if c == [] then [] else if c[0].hash == hash && c[0].key == k then [c[0].(value := v)] + c[1..] else [c[0]] + SetIn(c[1..], hash, k, v)
  }

  function DropFrom<K(==), V>(c: Chain<K, V>, hash: nat, k: K): Chain<K, V> {
    if c == [] then [] else if c[0].hash == hash && c[0].key == k then c[1..] else [c[0]] + DropFrom(c[1..], hash, k)
  }

  /** Entries carry the hash of their key. */
  ghost predicate Hashed<K, V>(c: Chain<K, V>, h: K -> nat) {
    forall i :: 0 <= i < |c| ==> c[i].hash == h(c[i].key)
  }

  ghost predicate DifferAt<K, V>(c: Chain<K, V>, i: int, j: int) {
    0 <= i < j < |c| ==> c[i].key != c[j].key
  }

  ghost predicate Distinct<K, V>(c: Chain<K, V>) {
    forall i: int, j: int :: DifferAt(c, i, j)
  }

  /** What the list says about a key, whatever hash its entries carry. */
  function Value<K(==), V>(c: Chain<K, V>, k: K): Option<V> {
    if c == [] then None else if c[0].key == k then Some(c[0].value) else Value(c[1..], k)
  }

  lemma {:induction false} FindIsValue<K, V>(c: Chain<K, V>, h: K -> nat, k: K)
    requires Hashed(c, h)
    ensures Find(c, h(k), k) == Value(c, k)
  {
    if c != [] { FindIsValue(c[1..], h, k); }
  }

  lemma {:induction false} ValueNone<K, V>(c: Chain<K, V>, k: K)
    ensures Value(c, k) == None <==> forall i :: 0 <= i < |c| ==> c[i].key != k
  {
    if c != [] {
      ValueNone(c[1..], k);
      assert forall i :: 0 < i < |c| ==> c[i] == c[1..][i - 1];
    }
  }

  lemma {:induction false} ValueConcat<K, V>(a: Chain<K, V>, b: Chain<K, V>, k: K)
    ensures Value(a + b, k) == if Value(a, k).Some? then Value(a, k) else Value(b, k)
  {
    if a == [] {
      assert a + b == b;
    } else {
      ValueConcat(a[1..], b, k);
      assert (a + b)[1..] == a[1..] + b;
    }
  }

  lemma {:induction false} SetInValue<K, V>(c: Chain<K, V>, h: K -> nat, k: K, v: V, x: K)
    requires Hashed(c, h)
    ensures Value(SetIn(c, h(k), k, v), x) == if x == k && Value(c, k).Some? then Some(v) else Value(c, x)
    ensures |SetIn(c, h(k), k, v)| == |c| && Hashed(SetIn(c, h(k), k, v), h)
    ensures forall i :: 0 <= i < |c| ==> SetIn(c, h(k), k, v)[i].key == c[i].key
  {
    if c != [] {
      SetInValue(c[1..], h, k, v, x);
      var d := SetIn(c, h(k), k, v);
      if c[0].key != k { assert d[1..] == SetIn(c[1..], h(k), k, v); } else { assert d[1..] == c[1..]; }
      forall i | 0 <= i < |c| ensures d[i].key == c[i].key && d[i].hash == h(d[i].key) {
        if i > 0 { assert d[i] == d[1..][i - 1] && c[i] == c[1..][i - 1]; }
      }
    }
  }

  lemma SetInDistinct<K, V>(c: Chain<K, V>, h: K -> nat, k: K, v: V)
    requires Hashed(c, h) && Distinct(c)
    ensures Distinct(SetIn(c, h(k), k, v))
  {
    SetInValue(c, h, k, v, k);
    forall i: int, j: int ensures DifferAt(SetIn(c, h(k), k, v), i, j) { assert DifferAt(c, i, j); }
  }

  lemma DistinctTail<K, V>(c: Chain<K, V>)
    requires Distinct(c) && c != []
    ensures Distinct(c[1..]) && Value(c[1..], c[0].key) == None
  {
    forall i: int, j: int ensures DifferAt(c[1..], i, j) { assert DifferAt(c, i + 1, j + 1); }
    forall i | 0 <= i < |c[1..]| ensures c[1..][i].key != c[0].key { assert DifferAt(c, 0, i + 1); }
    ValueNone(c[1..], c[0].key);
  }

  lemma DistinctCons<K, V>(e: Entry<K, V>, c: Chain<K, V>)
    requires Distinct(c) && Value(c, e.key) == None
    ensures Distinct([e] + c)
  {
    ValueNone(c, e.key);
    forall i: int, j: int ensures DifferAt([e] + c, i, j) { assert DifferAt(c, i - 1, j - 1); }
  }

  lemma {:induction false} DropValue<K, V>(c: Chain<K, V>, h: K -> nat, k: K, x: K)
    requires Hashed(c, h) && Distinct(c)
    ensures var d := DropFrom(c, h(k), k); Value(d, x) == (if x == k then None else Value(c, x)) && Hashed(d, h) && Distinct(d)
    ensures |DropFrom(c, h(k), k)| == |c| - Bit(Value(c, k).Some?)
  {
    if c != [] {
      DistinctTail(c);
      DropValue(c[1..], h, k, x);
      if c[0].key != k {
        DropValue(c[1..], h, k, c[0].key);
        var d := DropFrom(c[1..], h(k), k);
        DistinctCons(c[0], d);
        assert ([c[0]] + d)[1..] == d;
      }
    }
  }

  // ---------------------------------------------------------------- tables

  function Flatten<K, V>(t: Table<K, V>): Chain<K, V> {
    if t == [] then [] else t[0] + Flatten(t[1..])
  }

  /** Bucket `i` of a table with `n` buckets: hashes agree, the bucket is the hash modulo n, keys differ. */
  ghost predicate BucketOk<K, V>(c: Chain<K, V>, h: K -> nat, i: int, n: nat)
    requires n > 0
  {
    Hashed(c, h) && Distinct(c) && forall j :: 0 <= j < |c| ==> c[j].hash % n == i
  }

  ghost predicate TableOk<K, V>(t: Table<K, V>, h: K -> nat) {
    |t| > 0 && forall i :: 0 <= i < |t| ==> BucketOk(t[i], h, i, |t|)
  }

  function Get<K(==), V>(t: Table<K, V>, h: K -> nat, k: K): Option<V>
    requires |t| > 0
  {
    Find(t[h(k) % |t|], h(k), k)
  }

  /** In a bucket that is not its own a key is not found. */
  lemma ElsewhereNone<K, V>(c: Chain<K, V>, h: K -> nat, i: int, n: nat, k: K)
    requires n > 0 && BucketOk(c, h, i, n) && h(k) % n != i
    ensures Value(c, k) == None
  {
    ValueNone(c, k);
  }

  lemma BucketValue<K, V>(t: Table<K, V>, h: K -> nat, k: K)
    requires TableOk(t, h)
    ensures Get(t, h, k) == Value(t[h(k) % |t|], k)
  {
    FindIsValue(t[h(k) % |t|], h, k);
  }

  /** The walk over all buckets from `i` on meets a key once, in its own bucket. */
  lemma {:induction false} FlattenValue<K, V>(t: Table<K, V>, h: K -> nat, i: nat, k: K)
    requires TableOk(t, h) && i <= |t|
    ensures Value(Flatten(t[i..]), k) == if i <= h(k) % |t| then Value(t[h(k) % |t|], k) else None
    decreases |t| - i
  {
    if i < |t| {
      FlattenValue(t, h, i + 1, k);
      assert t[i..][1..] == t[i + 1..];
      ValueConcat(t[i], Flatten(t[i + 1..]), k);
      if h(k) % |t| != i { ElsewhereNone(t[i], h, i, |t|, k); }
    }
  }

  /** The walk gives exactly what the table holds. */
  lemma FlattenIsGet<K, V>(t: Table<K, V>, h: K -> nat, k: K)
    requires TableOk(t, h)
    ensures Value(Flatten(t), k) == Get(t, h, k)
  {
    assert t[0..] == t;
    FlattenValue(t, h, 0, k);
    BucketValue(t, h, k);
  }

  lemma {:induction false} FlattenOk<K, V>(t: Table<K, V>, h: K -> nat, i: nat)
    requires TableOk(t, h) && i <= |t|
    ensures Hashed(Flatten(t[i..]), h) && Distinct(Flatten(t[i..]))
    decreases |t| - i
  {
    if i < |t| {
      FlattenOk(t, h, i + 1);
      assert t[i..][1..] == t[i + 1..];
      var a, b := t[i], Flatten(t[i + 1..]);
      forall x: int, y: int ensures DifferAt(a + b, x, y) {
        assert DifferAt(a, x, y) && DifferAt(b, x - |a|, y - |a|);
        if 0 <= x < |a| <= y < |a| + |b| {
          assert BucketOk(a, h, i, |t|) && a[x].hash % |t| == i;
          FlattenValue(t, h, i + 1, a[x].key);
          ValueNone(b, a[x].key);
        }
      }
    }
  }

  /** A new entry goes to the head of its chain. */
  function Push<K, V>(t: Table<K, V>, e: Entry<K, V>): Table<K, V>
    requires |t| > 0
  {
    t[e.hash % |t| := [e] + t[e.hash % |t|]]
  }

  lemma PushIs<K, V>(t: Table<K, V>, h: K -> nat, e: Entry<K, V>)
    requires TableOk(t, h) && e.hash == h(e.key) && Get(t, h, e.key) == None
    ensures TableOk(Push(t, e), h) && |Push(t, e)| == |t|
    ensures forall k :: Get(Push(t, e), h, k) == if k == e.key then Some(e.value) else Get(t, h, k)
  {
    var i := e.hash % |t|;
    var u := Push(t, e);
    BucketValue(t, h, e.key);
    DistinctCons(e, t[i]);
    forall k ensures Get(u, h, k) == if k == e.key then Some(e.value) else Get(t, h, k) {
      if h(k) % |t| == i {
        assert u[i][1..] == t[i];
      }
    }
  }

  /** The loops of rehash: the entries of a list are pushed one by one. */
  function PushAll<K, V>(es: Chain<K, V>, t: Table<K, V>): (r: Table<K, V>)
    requires |t| > 0
    ensures |r| == |t|
    decreases |es|
  {
    if es == [] then t else PushAll(es[1..], Push(t, es[0]))
  }

  lemma {:induction false} PushAllIs<K, V>(es: Chain<K, V>, t: Table<K, V>, h: K -> nat)
    requires TableOk(t, h) && Hashed(es, h) && Distinct(es)
    requires forall i :: 0 <= i < |es| ==> Get(t, h, es[i].key) == None
    ensures TableOk(PushAll(es, t), h)
    ensures forall k :: Get(PushAll(es, t), h, k) == if Value(es, k).Some? then Value(es, k) else Get(t, h, k)
    decreases |es|
  {
    if es != [] {
      PushIs(t, h, es[0]);
      DistinctTail(es);
      ValueNone(es[1..], es[0].key);
      forall i | 0 <= i < |es[1..]| ensures Get(Push(t, es[0]), h, es[1..][i].key) == None { assert es[1..][i] == es[i + 1]; }
      PushAllIs(es[1..], Push(t, es[0]), h);
    }
  }

  function Empty<K, V>(n: nat): (t: Table<K, V>)
    ensures |t| == n
  {
    seq(n, _ => [])
  }

  /** rehash: every entry, walked bucket by bucket, is pushed into 2n+1 new buckets. */
  function Rehash<K, V>(t: Table<K, V>): Table<K, V> {
    PushAll(Flatten(t), Empty(2 * |t| + 1))
  }

  /** Rehashing moves entries and changes nothing that can be looked up. */
  lemma RehashIs<K, V>(t: Table<K, V>, h: K -> nat)
    requires TableOk(t, h)
    ensures TableOk(Rehash(t), h) && forall k :: Get(Rehash(t), h, k) == Get(t, h, k)
  {
    var e: Table<K, V> := Empty(2 * |t| + 1);
    forall i | 0 <= i < |e| ensures BucketOk(e[i], h, i, |e|) { }
    assert t[0..] == t;
    FlattenOk(t, h, 0);
    PushAllIs(Flatten(t), e, h);
    forall k ensures Get(Rehash(t), h, k) == Get(t, h, k) { FlattenIsGet(t, h, k); }
  }
}
