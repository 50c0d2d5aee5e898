/** The consumer's side of a perf ring buffer (src/utils/perf_event.cpp). */
module PerfBuffer {
  import opened MachineWords

  // ---------- masking ----------

  function Pow2(k: nat): (p: nat)
    ensures p > 0
  {
    if k == 0 then 1 else 2 * Pow2(k - 1)
  }

  // Bitwise conjunction of unsigned numbers.
  function BitAnd(a: nat, b: nat): nat {
    if a == 0 || b == 0 then 0 else (if a % 2 == 1 && b % 2 == 1 then 1 else 0) + 2 * BitAnd(a / 2, b / 2)
  }

  function Remainder(x: nat, n: nat): (r: nat)
    requires n > 0
    ensures r < n
  {
    x % n
  }

  /** Masking with 2^k - 1 is the remainder modulo 2^k. */
  lemma {:induction false} MaskIsRemainder(x: nat, k: nat)
    ensures BitAnd(x, Pow2(k) - 1) == Remainder(x, Pow2(k))
    decreases k
  {
    hide Remainder;
    RemainderIs(0, 0, Pow2(k), 0);
    RemainderIs(x, x, 1, 0);
    if x > 0 && k > 0 {
      var half := Pow2(k - 1);
      MaskIsRemainder(x / 2, k - 1);
      BitAndStep(x, half);
      RemainderOfHalf(x, half);
    }
  }

  lemma BitAndStep(x: nat, half: nat)
    requires x > 0 && half > 0
    ensures BitAnd(x, 2 * half - 1) == x % 2 + 2 * BitAnd(x / 2, half - 1)
  {
    var b := 2 * half - 1;
    assert b / 2 == half - 1 && b % 2 == 1;
  }

  lemma RemainderOfHalf(x: nat, half: nat)
    requires half > 0
    ensures Remainder(x, 2 * half) == x % 2 + 2 * Remainder(x / 2, half)
  {
    var y, r := x / 2, x / 2 % half;
    var q := y / half;
    assert y == q * half + r;
    assert x == q * (2 * half) + (x % 2 + 2 * r);
    RemainderIs(x, q, 2 * half, x % 2 + 2 * r);
  }

  lemma RemainderIs(x: nat, q: nat, n: nat, r: nat)
    requires x == q * n + r && r < n
    ensures Remainder(x, n) == r && x / n == q
  {
    var q', r' := x / n, x % n;
    Distribute(q, q', n);
    Distribute(q', q, n);
  }

  lemma Distribute(a: nat, b: nat, n: nat)
    ensures a < b ==> a * n + n <= b * n
  {
    if a < b {
      Split(a, b - a - 1, n);
      assert a + 1 + (b - a - 1) == b;
    }
  }

  lemma Split(a: nat, c: nat, n: nat)
    ensures (a + 1 + c) * n == a * n + n + c * n && c * n >= 0
  {
  }

  // ---------- copying out of the ring ----------

  // The bytes the two branches of the read copy, for a record that starts at offset t of the ring. The
  // mapping has one page before the ring; beyond is what lies behind it.
  function Fetch(ring: seq<byte>, beyond: nat -> byte, t: nat, size: nat, pageSize: nat): seq<byte>
    requires t < |ring|
  {
    var mmapLen := |ring| + pageSize;
    var ncopies := mmapLen - t;
    if ncopies < size then Copy(ring, beyond, t, ncopies) + Copy(ring, beyond, 0, size - ncopies)
    else Copy(ring, beyond, t, size)
  }

  function Copy(ring: seq<byte>, beyond: nat -> byte, from: nat, n: nat): (r: seq<byte>)
    ensures |r| == n
  {
    seq(n, i requires 0 <= i < n => if from + i < |ring| then ring[from + i] else beyond(from + i - |ring|))
  }

  // The record itself, which continues at the start of the ring.
  function Record(ring: seq<byte>, t: nat, size: nat): seq<byte>
    requires t < |ring| && size <= |ring|
  {
    seq(size, i requires 0 <= i < size => if t + i < |ring| then ring[t + i] else ring[t + i - |ring|])
  }

  /** The copy is the record, whatever lies behind the mapping, exactly if the record does not wrap around. */
  lemma FetchIsRecordExactly(ring: seq<byte>, t: nat, size: nat, pageSize: nat)
    requires t < |ring| && size <= |ring| && pageSize > 0
    ensures (forall beyond: nat -> byte :: Fetch(ring, beyond, t, size, pageSize) == Record(ring, t, size)) <==> t + size <= |ring|
  {
    if t + size > |ring| {
      var at := |ring| - t;
      var other: byte := if ring[0] == 0 then 1 else 0;
      var beyond: nat -> byte := _ => other;
      assert Fetch(ring, beyond, t, size, pageSize)[at] == other;
      assert Record(ring, t, size)[at] == ring[0];
    } else {
      forall beyond: nat -> byte ensures Fetch(ring, beyond, t, size, pageSize) == Record(ring, t, size) {
      }
    }
  }

  // ---------- records kept and skipped ----------

  // The delivered ones among the first records of the stream.
  ghost function Kept(stream: seq<byte>, fate: seq<bool>, size: nat): seq<byte>
    requires Bytes(|fate|, size) <= |stream|
  {
    if fate == [] then [] else
    var n := |fate| - 1;
    Distribute(n, |fate|, size);
    Kept(stream, fate[..n], size) + (if fate[n] then stream[Bytes(n, size)..Bytes(n, size) + size] else [])
  }

  lemma {:induction false} KeptOfLonger(stream: seq<byte>, more: seq<byte>, fate: seq<bool>, size: nat)
    requires Bytes(|fate|, size) <= |stream|
    ensures Bytes(|fate|, size) <= |stream + more| && Kept(stream + more, fate, size) == Kept(stream, fate, size)
    decreases |fate|
  {
    if fate != [] {
      var n := |fate| - 1;
      Distribute(n, |fate|, size);
      KeptOfLonger(stream, more, fate[..n], size);
      assert (stream + more)[Bytes(n, size)..Bytes(n, size) + size] == stream[Bytes(n, size)..Bytes(n, size) + size];
    }
  }

  lemma {:induction false} KeptOfSkipped(stream: seq<byte>, fate: seq<bool>, n: nat, size: nat)
    requires Bytes(|fate| + n, size) <= |stream|
    ensures Bytes(|fate|, size) <= |stream| && Kept(stream, fate + Skipped(n), size) == Kept(stream, fate, size)
    decreases n
  {
    if n > 0 {
      Distribute(|fate| + n - 1, |fate| + n, size);
      KeptOfSkipped(stream, fate, n - 1, size);
      var longer := fate + Skipped(n);
      assert longer[..|fate| + n - 1] == fate + Skipped(n - 1) && !longer[|fate| + n - 1];
    } else {
      assert fate + Skipped(n) == fate;
    }
  }

  function Skipped(n: nat): seq<bool> { seq(n, _ => false) }

  lemma KeptOfDelivered(stream: seq<byte>, fate: seq<bool>, size: nat)
    requires Bytes(|fate| + 1, size) <= |stream|
    ensures Bytes(|fate|, size) + size <= |stream|
    ensures Kept(stream, fate + [true], size) == Kept(stream, fate, size) + stream[Bytes(|fate|, size)..Bytes(|fate|, size) + size]
  {
    Distribute(|fate|, |fate| + 1, size);
    assert (fate + [true])[..|fate|] == fate;
  }

  // ---------- positions in the ring ----------

  lemma RemainderShift(x: nat, n: nat, i: nat)
    requires n > 0 && Remainder(x, n) + i < n
    ensures Remainder(x + i, n) == Remainder(x, n) + i
  {
    var q := x / n;
    assert x == q * n + Remainder(x, n);
    RemainderIs(x + i, q, n, Remainder(x, n) + i);
  }

  lemma RemainderInjective(a: nat, b: nat, n: nat)
    requires n > 0 && a < b < a + n
    ensures Remainder(a, n) != Remainder(b, n)
  {
    var q, r := a / n, Remainder(a, n);
    assert a == q * n + r;
    if r + (b - a) < n {
      RemainderIs(b, q, n, r + (b - a));
    } else {
      assert (q + 1) * n == q * n + n;
      RemainderIs(b, q + 1, n, r + (b - a) - n);
    }
  }

  // A record of a ring that holds whole records never wraps around.
  lemma RecordFits(record: nat, slots: nat, size: nat)
    requires slots > 0 && size > 0 && Bytes(slots, size) > 0
    ensures Remainder(Bytes(record, size), Bytes(slots, size)) + size <= Bytes(slots, size)
  {
    var q, r := record / slots, Remainder(record, slots);
    assert record == q * slots + r;
    Distribute(r, slots, size);
    Rearrange(q, slots, r, size);
    RemainderIs(record * size, q, slots * size, r * size);
  }

  /** Every record fits without wrapping around exactly if the ring holds whole records. */
  lemma RecordsFitExactly(n: nat, size: nat)
    requires 0 < size <= n
    ensures (forall record: nat :: Remainder(Bytes(record, size), n) + size <= n) <==> n % size == 0
  {
    var slots, r := n / size, n % size;
    assert n == Bytes(slots, size) + r;
    if r == 0 {
      assert slots > 0;
      forall record: nat ensures Remainder(Bytes(record, size), n) + size <= n {
        RecordFits(record, slots, size);
      }
    } else {
      RemainderIs(Bytes(slots, size), 0, n, Bytes(slots, size));
    }
  }

  // The third record of three bytes in a ring of eight: its last byte is taken from behind the ring. Where
  // the record goes past the mapping too, the first bytes of the ring come after one page from behind it.
  lemma WrappingRecord()
    ensures var ring: seq<byte> := [1, 2, 3, 4, 5, 6, 7, 8];
            Fetch(ring, _ => 0, 6, 3, 4096) == [7, 8, 0] && Record(ring, 6, 3) == [7, 8, 1]
    ensures Fetch([1, 2, 3, 4], _ => 0, 3, 4, 1) == [4, 0, 1, 2]
  {
  }

  lemma Rearrange(q: nat, slots: nat, r: nat, size: nat)
    ensures (q * slots + r) * size == q * (slots * size) + r * size
  {
  }

  // The length of some whole records.
  function Bytes(records: nat, size: nat): nat { records * size }

  lemma BytesAdd(a: nat, b: nat, size: nat)
    ensures Bytes(a + b, size) == Bytes(a, size) + Bytes(b, size)
    ensures Bytes(1, size) == size && Bytes(0, size) == 0
  {
  }

  // ---------- the buffer ----------

  /** The ring and the header's two free-running positions; a read takes one record of size bytes. */
  class Buffer {
    const ring: array<byte>
    const logLength: nat
    const pageSize: nat
    const size: nat
    const beyond: nat -> byte  // what a read behind the mapping would see
    var dataHead: nat
    var dataTail: nat
    ghost const slots: nat  // whole records in the ring
    ghost var stream: seq<byte>  // all bytes ever produced
    ghost var produced: nat  // whole records produced
    ghost var fate: seq<bool>  // for each record consumed: was it delivered?
    ghost var delivered: seq<byte>

    ghost predicate Sized() {
      ring.Length == Pow2(logLength) == Bytes(slots, size) && slots > 0 && size > 0
    }

    // The unread bytes of the stream are in the ring.
    ghost predicate Holds()
      reads this, ring
      requires Sized()
    {
      |stream| == dataHead &&
      forall i | dataTail <= i < dataHead :: ring[Remainder(i, ring.Length)] == stream[i]
    }

    ghost predicate Valid()
      reads this, ring
    {
      && Sized()
      && dataTail <= dataHead <= dataTail + ring.Length
      && dataHead == Bytes(produced, size) && dataTail == Bytes(|fate|, size)
      && Holds()
      && Bytes(|fate|, size) <= |stream| && delivered == Kept(stream, fate, size)
    }

    constructor (logLength: nat, pageSize: nat, size: nat, ghost slots: nat, beyond: nat -> byte)
      requires Pow2(logLength) == Bytes(slots, size) && slots > 0 && size > 0
      ensures Valid() && fresh(ring) && this.size == size && ring.Length == Pow2(logLength)
      ensures dataHead == 0 && dataTail == 0 && stream == [] && fate == [] && delivered == []
    {
      this.logLength, this.pageSize, this.size, this.slots, this.beyond := logLength, pageSize, size, slots, beyond;
      ring := new byte[Pow2(logLength)];
      dataHead, dataTail, stream, produced, fate, delivered := 0, 0, [], 0, [], [];
    }

    // The kernel copies bytes behind the head.
    method WriteBehindHead(bytes: seq<byte>)
      requires ring.Length > 0 && dataHead + |bytes| <= dataTail + ring.Length
      requires |stream| == dataHead
      requires forall i | dataTail <= i < dataHead :: ring[Remainder(i, ring.Length)] == stream[i]
      modifies ring
      ensures forall i | dataTail <= i < dataHead + |bytes| :: ring[Remainder(i, ring.Length)] == (stream + bytes)[i]
    {
      hide Remainder;
      for k := 0 to |bytes|
        invariant forall i | dataTail <= i < dataHead + k :: ring[Remainder(i, ring.Length)] == (stream + bytes)[i]
      {
        forall i | dataTail <= i < dataHead + k ensures Remainder(i, ring.Length) != Remainder(dataHead + k, ring.Length) {
          RemainderInjective(i, dataHead + k, ring.Length);
        }
        ring[Remainder(dataHead + k, ring.Length)] := bytes[k];
      }
    }

    // The kernel appends whole records and stays within the ring.
    method Produce(bytes: seq<byte>, ghost records: nat)
      requires Valid() && |bytes| == Bytes(records, size) && dataHead + |bytes| <= dataTail + ring.Length
      modifies this`dataHead, this`stream, this`produced, ring
      ensures Valid() && stream == old(stream) + bytes && dataHead == old(dataHead) + |bytes|
      ensures produced == old(produced) + records
    {
      KeptOfLonger(stream, bytes, fate, size);
      hide Kept, Remainder, Bytes, Pow2;
      WriteBehindHead(bytes);
      BytesAdd(produced, records, size);
      stream := stream + bytes;
      dataHead := dataHead + |bytes|;
      produced := produced + records;
    }

    // The two branches of the copy.
    method CopyOut(t: nat, buf: array<byte>)
      requires t < ring.Length && buf.Length >= size && buf != ring
      modifies buf
      ensures buf[..size] == Fetch(ring[..], beyond, t, size, pageSize)
    {
      var bytes := Fetch(ring[..], beyond, t, size, pageSize);
      hide Fetch;
      forall k | 0 <= k < size {
        buf[k] := bytes[k];
      }
      assert buf[..size] == bytes;
    }

    /** A failed read changes nothing; otherwise the next record of the stream is delivered. */
    method Read(buf: array<byte>) returns (result: int)
      requires Valid() && buf.Length >= size && buf != ring
      modifies this`dataTail, this`fate, this`delivered, buf
      ensures Valid()
      ensures result == if old(dataHead - dataTail) < size then -1 else 0
      ensures result == -1 ==> dataTail == old(dataTail) && fate == old(fate) && buf[..] == old(buf[..])
      ensures result == 0 ==>
                && dataTail == old(dataTail) + size <= |stream| && fate == old(fate) + [true]
                && buf[..size] == stream[old(dataTail)..dataTail] && delivered == old(delivered) + buf[..size]
    {
      if dataHead - dataTail < size {
        return -1;
      }
      var t := BitAnd(dataTail, ring.Length - 1);
      NextRecord(t);
      hide *;
      CopyOut(t, buf);
      Advance();
      return 0;
    }

    // The masked tail is where the next record of the stream lies.
    lemma NextRecord(t: nat)
      requires Valid() && dataHead - dataTail >= size && t == BitAnd(dataTail, ring.Length - 1)
      ensures t < ring.Length && dataTail + size <= |stream|
      ensures Fetch(ring[..], beyond, t, size, pageSize) == stream[dataTail..dataTail + size]
    {
      hide Kept, Pow2, BitAnd, Remainder, Bytes, Fetch;
      MaskIsRemainder(dataTail, logLength);
      RecordFits(|fate|, slots, size);
      FetchIsStream(t, Fetch(ring[..], beyond, t, size, pageSize));
    }

    // The tail moves behind the record delivered.
    method Advance()
      requires Valid() && dataHead - dataTail >= size
      modifies this`dataTail, this`fate, this`delivered
      ensures Valid() && dataTail == old(dataTail) + size <= |stream| && fate == old(fate) + [true]
      ensures delivered == old(delivered) + stream[old(dataTail)..dataTail]
    {
      hide Kept, Pow2, Remainder, Bytes;
      BytesAdd(|fate|, 1, size);
      KeptOfDelivered(stream, fate, size);
      delivered := delivered + stream[dataTail..dataTail + size];
      dataTail := dataTail + size;
      fate := fate + [true];
    }

    lemma FetchIsStream(t: nat, bytes: seq<byte>)
      requires Sized() && Holds() && dataTail + size <= dataHead
      requires t == Remainder(dataTail, ring.Length) && t + size <= ring.Length
      requires bytes == Fetch(ring[..], beyond, t, size, pageSize)
      ensures bytes == stream[dataTail..dataTail + size]
    {
      forall i | 0 <= i < size ensures bytes[i] == stream[dataTail + i] {
        RemainderShift(dataTail, ring.Length, i);
      }
    }

    /** Skips whole records, but never past the head. */
    method Skip(count: nat, ghost records: nat)
      requires Valid() && count == Bytes(records, size)
      modifies this`dataTail, this`fate
      ensures Valid() && delivered == old(delivered)
      ensures dataTail == if old(dataTail) + count > dataHead then dataHead else old(dataTail) + count
      ensures old(fate) <= fate && forall i | |old(fate)| <= i < |fate| :: !fate[i]
    {
      var skip := count;
      ghost var n := records;
      if dataTail + count > dataHead {
        skip := dataHead - dataTail;
        FewerRecords(|fate|, produced, size);
        n := produced - |fate|;
      }
      BytesAdd(|fate|, n, size);
      hide Kept, Pow2, Remainder, Bytes;
      KeptOfSkipped(stream, fate, n, size);
      dataTail := dataTail + skip;
      fate := fate + Skipped(n);
    }
  }

  lemma FewerRecords(a: nat, b: nat, size: nat)
    requires size > 0 && Bytes(a, size) <= Bytes(b, size)
    ensures a <= b && Bytes(b - a, size) == Bytes(b, size) - Bytes(a, size)
  {
    Distribute(b, a, size);
    if a <= b { BytesAdd(a, b - a, size); }
  }
}
