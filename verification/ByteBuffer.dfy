/**
 The byte buffer of src/bytebuffer.c as a queue of bytes: the readable contents are all that its users see, and
 compaction and growth do not change them.
 */
module ByteBuffer {
  import opened Common

  type bytes = seq<byte>

  const BB_MAX_CAPACITY: nat := 16 * 1024 * 1024
  const SIZE_MAX: nat := 0xFFFF_FFFF_FFFF_FFFF
  const PTRDIFF_MAX: nat := 0x7FFF_FFFF_FFFF_FFFF    // no allocation is larger

  // ---------------------------------------------------------------- growing

  /** The doubling loop: None when it would pass half of the cap before the need is met. */
  function Doubled(cap: nat, needed: nat): (r: Option<nat>)
    requires cap > 0
    ensures r.Some? ==> needed <= r.value && cap <= r.value && (needed > cap ==> r.value <= BB_MAX_CAPACITY)
    decreases needed - cap
  {
    if cap >= needed then Some(cap)
    else if cap > BB_MAX_CAPACITY / 2 then None
    else Doubled(2 * cap, needed)
  }

  /** The largest capacity that doubling can reach. */
  function Reach(cap: nat): (r: nat)
    requires cap > 0
    ensures r >= cap && (cap <= BB_MAX_CAPACITY ==> BB_MAX_CAPACITY / 2 < r <= BB_MAX_CAPACITY)
    decreases BB_MAX_CAPACITY - cap
  {
    if cap > BB_MAX_CAPACITY / 2 then cap else Reach(2 * cap)
  }

  /** The guard turns down exactly the needs that no doubling can meet. */
  lemma {:induction false} DoublingExact(cap: nat, needed: nat)
    requires cap > 0
    ensures Doubled(cap, needed).Some? <==> needed <= Reach(cap)
    ensures Doubled(cap, needed).Some? ==> Reach(Doubled(cap, needed).value) == Reach(cap)
    decreases needed - cap
  {
    if cap < needed && cap <= BB_MAX_CAPACITY / 2 { DoublingExact(2 * cap, needed); }
  }

  function Scaled(base: nat, k: nat): nat { if k == 0 then base else 2 * Scaled(base, k - 1) }

  /** The doublings of the capacity meet the cap exactly. */
  ghost predicate Divides(cap: nat) {
    exists k: nat :: Scaled(cap, k) == BB_MAX_CAPACITY
  }

  lemma {:induction false} ScaledTwice(cap: nat, k: nat)
    ensures Scaled(2 * cap, k) == 2 * Scaled(cap, k) == Scaled(cap, k + 1)
  {
    if k > 0 { ScaledTwice(cap, k - 1); }
  }

  lemma {:induction false} ScaledGrows(cap: nat, k: nat)
    ensures cap <= Scaled(cap, k)
  {
    if k > 0 { ScaledGrows(cap, k - 1); }
  }

  /** All of the 16 MiB can be used if and only if the capacity is the cap halved some number of times. */
  lemma {:induction false} ReachesCapIff(cap: nat)
    requires 0 < cap <= BB_MAX_CAPACITY
    ensures Reach(cap) == BB_MAX_CAPACITY <==> Divides(cap)
    decreases BB_MAX_CAPACITY - cap
  {
    if cap == BB_MAX_CAPACITY {
      assert Scaled(cap, 0) == BB_MAX_CAPACITY;
    } else if cap > BB_MAX_CAPACITY / 2 {
      if Divides(cap) {
        var k: nat :| Scaled(cap, k) == BB_MAX_CAPACITY;
        assert k > 0;
        ScaledGrows(cap, k - 1);
      }
    } else {
      ReachesCapIff(2 * cap);
      if Divides(2 * cap) {
        var k: nat :| Scaled(2 * cap, k) == BB_MAX_CAPACITY;
        ScaledTwice(cap, k);
      }
      if Divides(cap) {
        var k: nat :| Scaled(cap, k) == BB_MAX_CAPACITY;
        assert k > 0;
        ScaledTwice(cap, k - 1);
      }
    }
  }

  // ---------------------------------------------------------------- numbers

  predicate Int32(v: int) { -0x8000_0000 <= v < 0x8000_0000 }

  /** Network byte order. */
  function BigEndian(v: int): (s: bytes)
    requires Int32(v)
    ensures |s| == 4
  {
    var u := v % 0x1_0000_0000;
    [u / 0x100_0000, u / 0x1_0000 % 256, u / 256 % 256, u % 256]
  }

  function FromBigEndian(s: bytes): (v: int)
    requires |s| == 4
    ensures Int32(v)
  {
    var u := ((s[0] as int * 256 + s[1] as int) * 256 + s[2] as int) * 256 + s[3] as int;
    if u >= 0x8000_0000 then u - 0x1_0000_0000 else u
  }

  lemma BigEndianRoundTrip(v: int)
    requires Int32(v)
    ensures FromBigEndian(BigEndian(v)) == v
  {
    var u := v % 0x1_0000_0000;
    var a, b := u / 256, u / 0x1_0000;
    assert b == a / 256 && u / 0x100_0000 == b / 256;
    assert u == 256 * a + u % 256 && a == 256 * b + a % 256 && b == 256 * (b / 256) + b % 256;
  }

  // ---------------------------------------------------------------- skipping

  /** Where impl_skip leaves the read position, in the arithmetic of size_t. */
  function SkippedTo(readPos: nat, writePos: nat, len: nat): nat {
    var sum := (readPos + len) % (SIZE_MAX + 1);
    if sum > writePos then writePos else sum
  }

  lemma WrappedSum(readPos: nat, len: nat)
    requires readPos <= SIZE_MAX && len <= SIZE_MAX
    ensures (readPos + len) % (SIZE_MAX + 1) == if len <= SIZE_MAX - readPos then readPos + len else readPos + len - SIZE_MAX - 1
  {
  }

  /** It drops what it should, as many bytes as are there, exactly when the sum does not wrap around. */
  lemma SkipExact(readPos: nat, writePos: nat, len: nat)
    requires readPos <= writePos <= SIZE_MAX && len <= SIZE_MAX
    ensures SkippedTo(readPos, writePos, len) == readPos + (if len < writePos - readPos then len else writePos - readPos)
            <==> len <= SIZE_MAX - readPos
  {
    WrappedSum(readPos, len);
  }

  lemma SkippedBytes(d: bytes, readPos: nat, writePos: nat, len: nat)
    requires readPos <= writePos <= |d| <= SIZE_MAX && len <= SIZE_MAX
    ensures var r, n := SkippedTo(readPos, writePos, len), writePos - readPos;
            if len <= SIZE_MAX - readPos then r <= writePos && d[r..writePos] == d[readPos..writePos][if len < n then len else n..]
            else r == readPos + len - SIZE_MAX - 1 < readPos && d[r..writePos] == d[r..readPos] + d[readPos..writePos]
  {
    WrappedSum(readPos, len);
    if len > SIZE_MAX - readPos { CutSlice(d, readPos + len - SIZE_MAX - 1, readPos, writePos); }
  }

  // ---------------------------------------------------------------- the buffer

  /** The loop of ensure_capacity. */
  method FindCapacity(start: nat, needed: nat) returns (r: Option<nat>)
    requires start > 0
    ensures r == Doubled(start, needed)
  {
    var cap := start;
    while cap < needed
      invariant cap > 0 && Doubled(cap, needed) == Doubled(start, needed)
      decreases needed - cap
    {
      if cap > BB_MAX_CAPACITY / 2 {
        return None;
      }
      cap := cap * 2;
    }
    return Some(cap);
  }

  class Buffer {
    var data: array<byte>
    var readPos: nat
    var writePos: nat

    ghost predicate Valid()
      reads this
    {
      readPos <= writePos <= data.Length && 0 < data.Length <= PTRDIFF_MAX
    }

    /** The readable bytes. */
    ghost function Contents(): (s: bytes)
      reads this, data
      requires Valid()
      ensures |s| == writePos - readPos
    {
      data[readPos..writePos]
    }

    constructor (capacity: nat)
      requires capacity <= PTRDIFF_MAX
      ensures Valid() && fresh(data) && Contents() == [] && readPos == 0
      ensures data.Length == if capacity == 0 then 1024 else capacity
    {
      data := new byte[if capacity == 0 then 1024 else capacity];
      readPos, writePos := 0, 0;
    }

    /** impl_compact: the readable bytes move to the front. */
    method Compact()
      requires Valid()
      modifies this`readPos, this`writePos, data
      ensures Valid() && readPos == 0 && Contents() == old(Contents())
    {
      var n := writePos - readPos;
      if readPos > 0 {
        var d, r := data, readPos;
        for i := 0 to n
          invariant forall j :: 0 <= j < i ==> d[j] == old(data[readPos + j])
          invariant forall j :: r + i <= j < d.Length ==> d[j] == old(data[j])
        {
          d[i] := d[r + i];
        }
        readPos := 0;
        writePos := n;
      }
    }

    /** Room for `len` more bytes is found: after compaction, or by doubling. */
    ghost predicate HasRoom(len: nat)
      reads this
      requires Valid()
    {
      len <= SIZE_MAX - writePos &&
      (writePos + len <= data.Length || Doubled(data.Length, writePos - readPos + len).Some?)
    }

    /** That is: what is readable and the new bytes fit the largest capacity in reach, and the positions do not wrap. */
    lemma RoomExact(len: nat)
      requires Valid()
      ensures HasRoom(len) <==> |Contents()| + len <= Reach(data.Length) && writePos + len <= SIZE_MAX
    {
      DoublingExact(data.Length, writePos - readPos + len);
    }

    /** ensure_capacity. */
    method EnsureCapacity(len: nat) returns (ok: bool)
      requires Valid()
      modifies this, data
      ensures Valid() && Contents() == old(Contents()) && (data == old(data) || fresh(data))
      ensures ok == old(HasRoom(len))
      ensures ok ==> writePos + len <= data.Length
      ensures data.Length == if old(HasRoom(len)) && old(writePos + len > data.Length)
                             then Doubled(old(data.Length), old(writePos - readPos + len)).value else old(data.Length)
      ensures old(readPos) == 0 ==> readPos == 0
    {
      if len > SIZE_MAX - writePos {
        return false;
      }
      if writePos + len <= data.Length {
        return true;
      }
      Compact();
      ok := GrowTo(writePos + len);
    }

    /** The compacted buffer grows when it has to. */
    method GrowTo(needed: nat) returns (ok: bool)
      requires Valid() && needed <= SIZE_MAX
      modifies this`data
      ensures Valid() && Contents() == old(Contents()) && (data == old(data) || fresh(data))
      ensures ok == Doubled(old(data.Length), needed).Some?
      ensures data.Length == if ok then Doubled(old(data.Length), needed).value else old(data.Length)
    {
      if needed <= data.Length {
        return true;
      }
      var cap := FindCapacity(data.Length, needed);
      if cap.None? {
        return false;
      }
      Enlarge(cap.value);
      return true;
    }

    /** realloc. */
    method Enlarge(cap: nat)
      requires Valid() && data.Length <= cap <= PTRDIFF_MAX
      modifies this`data
      ensures Valid() && fresh(data) && data.Length == cap && Contents() == old(Contents())
    {
      var bigger := new byte[cap];
      forall i | 0 <= i < data.Length { bigger[i] := data[i]; }
      data := bigger;
    }

    /** impl_write; impl_writeByte is the case of one byte. */
    method Write(s: bytes) returns (ok: bool)
      requires Valid()
      modifies this, data
      ensures Valid() && (data == old(data) || fresh(data)) && (old(readPos) == 0 ==> readPos == 0)
      ensures ok == (s == [] || old(HasRoom(|s|)))
      ensures Contents() == old(Contents()) + if ok then s else []
      ensures data.Length == if ok && old(writePos) + |s| > old(data.Length)
                             then Doubled(old(data.Length), old(writePos - readPos) + |s|).value else old(data.Length)
    {
      if s == [] {
        return true;
      }
      ok := EnsureCapacity(|s|);
      if !ok {
        return;
      }
      Store(s);
    }

    /** memcpy behind the last byte. */
    method Store(s: bytes)
      requires Valid() && writePos + |s| <= data.Length
      modifies this`writePos, data
      ensures Valid() && writePos == old(writePos) + |s| && Contents() == old(Contents()) + s
    {
      forall i | 0 <= i < |s| { data[writePos + i] := s[i]; }
      assert data[readPos..writePos] == old(data[readPos..writePos]) && data[writePos..writePos + |s|] == s;
      CutSlice(data[..], readPos, writePos, writePos + |s|);
      writePos := writePos + |s|;
    }

    method WriteInt32(v: int) returns (ok: bool)
      requires Valid() && Int32(v)
      modifies this, data
      ensures Valid() && (data == old(data) || fresh(data)) && ok == old(HasRoom(4))
      ensures Contents() == old(Contents()) + if ok then BigEndian(v) else []
    {
      ok := Write(BigEndian(v));
    }

    /** impl_read; impl_readByte is the case of one byte. */
    method Read(len: nat) returns (s: bytes)
      requires Valid()
      modifies this`readPos
      ensures Valid() && readPos == old(readPos) + |s| && s + Contents() == old(Contents())
      ensures |s| == if len < |old(Contents())| then len else |old(Contents())|
    {
      var n := if len > writePos - readPos then writePos - readPos else len;
      s := data[readPos..readPos + n];
      readPos := readPos + n;
    }

    method PeekInt32() returns (r: Option<int>)
      requires Valid()
      ensures r == if |Contents()| < 4 then None else Some(FromBigEndian(Contents()[..4]))
    {
      if readPos + 4 > writePos {
        return None;
      }
      assert Contents()[..4] == data[readPos..readPos + 4];
      r := Some(FromBigEndian(data[readPos..readPos + 4]));
    }

    method ReadInt32() returns (r: Option<int>)
      requires Valid()
      modifies this`readPos
      ensures Valid()
      ensures if |old(Contents())| < 4 then r == None && Contents() == old(Contents())
              else r == Some(FromBigEndian(old(Contents())[..4])) && Contents() == old(Contents())[4..]
    {
      r := PeekInt32();
      if r.Some? {
        readPos := readPos + 4;
      }
    }

    /** impl_skip: a length that the addition wraps around takes the buffer back over bytes already read. */
    method Skip(len: nat)
      requires Valid() && len <= SIZE_MAX
      modifies this`readPos
      ensures Valid() && readPos == SkippedTo(old(readPos), writePos, len)
      ensures len <= SIZE_MAX - old(readPos) ==>
                Contents() == old(Contents())[if len < |old(Contents())| then len else |old(Contents())|..]
      ensures len > SIZE_MAX - old(readPos) ==>
                readPos == old(readPos) + len - SIZE_MAX - 1 && Contents() == data[readPos..old(readPos)] + old(Contents())
    {
      var sum := (readPos + len) % (SIZE_MAX + 1);
      SkippedBytes(data[..], readPos, writePos, len);
      readPos := if sum > writePos then writePos else sum;
    }

    /** impl_indexOf: the first place of the byte in the readable bytes. */
    method IndexOf(target: byte) returns (r: Option<nat>)
      requires Valid()
      ensures match r
              case None => target !in Contents()
              case Some(i) => i < |Contents()| && Contents()[i] == target && target !in Contents()[..i]
    {
      for i := readPos to writePos
        invariant target !in data[readPos..i]
      {
        if data[i] == target {
          assert Contents()[..i - readPos] == data[readPos..i];
          return Some(i - readPos);
        }
        assert data[readPos..i + 1] == data[readPos..i] + [data[i]];
      }
      return None;
    }

    /** impl_readSlice: an independent buffer with the first bytes of this one. */
    method ReadSlice(len: nat) returns (out: Buffer)
      requires Valid()
      modifies this`readPos
      ensures Valid() && fresh(out) && fresh(out.data) && out.Valid() && out.Contents() + Contents() == old(Contents())
      ensures |out.Contents()| == if len < |old(Contents())| then len else |old(Contents())|
    {
      var n := if len > writePos - readPos then writePos - readPos else len;
      out := new Buffer(n);
      var ok := out.Write(data[readPos..readPos + n]);
      readPos := readPos + n;
    }
  }

  /** Skipping SIZE_MAX bytes makes the byte just read readable again. */
  method SkipGoesBack(b: byte) returns (first: bytes, again: bytes)
    ensures first == [b] && again == [b]
  {
    var buf := new Buffer(0);
    var ok := buf.Write([b]);
    first := buf.Read(1);
    buf.Skip(SIZE_MAX);
    again := buf.Read(1);
  }

  /** A buffer of 6 MiB doubles once, and then cannot take 16 MiB. */
  lemma SixMegabytesFallShort()
    ensures Reach(0x60_0000) == 0xC0_0000 && Doubled(0x60_0000, BB_MAX_CAPACITY) == None && !Divides(0x60_0000)
  {
    assert Reach(0x60_0000) == Reach(0xC0_0000);
    ReachesCapIff(0x60_0000);
    DoublingExact(0x60_0000, BB_MAX_CAPACITY);
  }

  /** A value written to an empty buffer is read back. */
  method Int32Echo(v: int) returns (r: Option<int>)
    requires Int32(v)
    ensures r == Some(v)
  {
    var b := new Buffer(0);
    var ok := b.WriteInt32(v);
    BigEndianRoundTrip(v);
    assert b.Contents()[..4] == BigEndian(v);
    r := b.ReadInt32();
  }
}
