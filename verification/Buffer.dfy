/**
  The methods of buffer.go on a ring of their own: each as one call, with the branches and
  the index arithmetic of the source. `stream` is every byte ever committed; the unread
  bytes are those from the consumer's cursor on. A call that would wait says so.
 */
module Buffers {
  import opened Bytes
  import opened Bits
  import opened Ring
  import opened Wrap

  const DEFAULT_BUFFER_SIZE := 4096

  datatype Outcome<+T> = Done(value: T) | Waits | BufferFull

  /** ringCopy: as much as fits up to the end, then on from the start. */
  method RingCopy(dst: array<Byte>, src: Data, start: nat) returns (total: nat)
    requires |src| <= dst.Length && start < dst.Length
    modifies dst
    ensures total == |src|
    ensures forall j :: 0 <= j < |src| ==> dst[(start + j) % dst.Length] == src[j]
    ensures forall k :: 0 <= k < dst.Length && !InRun(dst.Length, start, |src|, k) ==> dst[k] == old(dst[k])
  {
    var n, i, at := |src|, 0, start;
    while n > 0
      invariant 0 <= n && i + n == |src|
      invariant (i == 0 && at == start) || (i == dst.Length - start && at == 0) || n == 0
      invariant forall j :: 0 <= j < i ==> dst[(start + j) % dst.Length] == src[j]
      invariant forall k :: 0 <= k < dst.Length && !InRun(dst.Length, start, i, k) ==> dst[k] == old(dst[k])
      decreases n
    {
      var l := Min(dst.Length - at, |src| - i);
      forall k | 0 <= k < l {
        dst[at + k] := src[i + k];
      }
      forall j | 0 <= j < i + l ensures dst[(start + j) % dst.Length] == src[j] {
        WrapIndex(dst.Length, start, j);
      }
      i := i + l;
      n := n - l;
      if n > 0 {
        at := 0;
      }
    }
    return i;
  }

  /** Whether slot k is one of n slots from `start` on, around the end. */
  predicate InRun(size: nat, start: nat, n: nat, k: nat) {
    if start <= k then k < start + n else k + size < start + n
  }

  datatype SizeError = NegativeCount | TryInstead(size: nat)

  /** The checks of newBuffer: the size to make, or the complaint. */
  method CheckSize(wanted: int) returns (size: nat, error: bool, why: SizeError)
    ensures error <==> wanted < 0 || (wanted > 0 && !(IsPow2(wanted) && wanted >= 2 * BLOCK))
    ensures !error ==> size == (if wanted == 0 then DEFAULT_BUFFER_SIZE else wanted) && IsPow2(size)
    ensures error ==> (why.NegativeCount? <==> wanted < 0)
    ensures error && 0 < wanted <= Pow2(62) && !IsPow2(wanted) ==>
      why.TryInstead? && IsPow2(why.size) && wanted <= why.size < 2 * wanted
    ensures error && wanted > 0 && IsPow2(wanted) ==> why == TryInstead(2 * BLOCK)
  {
    why := NegativeCount;
    if wanted < 0 {
      return 0, true, NegativeCount;
    }
    size := wanted;
    if size == 0 {
      size := DEFAULT_BUFFER_SIZE;
      DefaultIsPower();
    }
    PowerOfTwoTest(size);
    if !PowerOfTwo(size) {
      if size <= Pow2(62) {
        ghost var k := RoundUpIsLeast(size);
        NextBelowDouble(size, k);
      }
      return size, true, TryInstead(RoundUpPowerOfTwo(size));
    }
    if size / 2 < BLOCK {
      return size, true, TryInstead(2 * BLOCK);
    }
    return size, false, why;
  }

  lemma DefaultIsPower()
    ensures IsPow2(DEFAULT_BUFFER_SIZE)
  {
    assert Pow2(6) == 64;
    assert Pow2(9) == 512;
    assert Pow2(12) == DEFAULT_BUFFER_SIZE;
  }

  lemma NextBelowDouble(n: nat, k: nat)
    requires n <= Pow2(k) && forall j: nat :: n <= Pow2(j) ==> Pow2(k) <= Pow2(j)
    requires n > 0
    ensures Pow2(k) < 2 * n
  {
  }

  class Buffer {
    const size: nat
    const mask: nat
    const buf: array<Byte>
    var tmp: Data
    var pcur: nat
    var ccur: nat
    var gate: nat
    ghost var stream: Data

    ghost predicate Valid()
      reads this, buf
    {
      && IsPow2(size) && size == buf.Length && mask == size - 1
      && gate <= ccur <= pcur <= ccur + size
      && |stream| == pcur
      && forall i :: ccur <= i < pcur ==> buf[i % size] == stream[i]
    }

    ghost function Unread(): Data
      requires Valid()
      reads this, buf
    {
      stream[ccur..]
    }

    constructor (size: nat)
      requires IsPow2(size)
      ensures Valid() && fresh(buf) && this.size == size && stream == [] && ccur == 0
    {
      this.size := size;
      mask := size - 1;
      buf := new Byte[size](_ => 0);
      tmp := [];
      pcur, ccur, gate := 0, 0, 0;
      stream := [];
    }

    function Index(pos: nat): nat {
      BitAnd(pos, mask)
    }

    lemma IndexWraps(pos: nat)
      requires IsPow2(size) && mask == size - 1
      ensures size > 0 && Index(pos) == pos % size < size
    {
      var k: nat :| size == Pow2(k);
      MaskIsRemainder(pos, k);
    }

    lemma UnreadAround(n: nat)
      requires Valid() && ccur + n <= pcur
      ensures size > 0 && Around(buf[..], ccur, n) == Unread()[..n]
    {
    }

    // ---------- the producer ----------

    /** Waits exactly when the bytes would reach over what is unread. */
    method WaitForWriteSpace(n: nat) returns (waits: bool, start: nat, cnt: nat)
      requires Valid()
      modifies this`gate
      ensures Valid()
      ensures waits <==> pcur + n > ccur + size
      ensures start == pcur && cnt == n
    {
      var ppos := pcur;
      var next := ppos + n;
      var wrap := next - size;
      if wrap > gate || gate > ppos {
        var cpos := ccur;
        if wrap > cpos {
          return true, ppos, n;
        }
        gate := cpos;
      }
      return false, ppos, n;
    }

    method Write(p: Data) returns (r: Outcome<nat>)
      requires Valid()
      modifies this, buf
      ensures Valid() && ccur == old(ccur)
      ensures r == if old(pcur) + |p| > ccur + size then Waits else Done(|p|)
      ensures stream == if r.Done? then old(stream) + p else old(stream)
    {
      var waits, start, _ := WaitForWriteSpace(|p|);
      if waits {
        return Waits;
      }
      IndexWraps(start);
      ghost var was := buf[..];
      var total := RingCopy(buf, p, Index(start));
      Appended(was, buf[..], size, ccur, start, stream, p);
      pcur := start + |p|;
      stream := stream + p;
      return Done(total);
    }

    /** The slice to fill in place, as an offset and a length, or all up to the end of the
        ring when the bytes would wrap. */
    method WriteWait(n: nat) returns (waits: bool, at: nat, len: nat, wrap: bool)
      requires Valid()
      modifies this`gate
      ensures Valid()
      ensures waits <==> pcur + n > ccur + size
      ensures !waits ==>
        && at == pcur % size && at + len <= size
        && (wrap <==> pcur % size + n > size)
        && len == if wrap then size - at else n
    {
      var start, cnt;
      waits, start, cnt := WaitForWriteSpace(n);
      if waits {
        return true, 0, 0, false;
      }
      IndexWraps(start);
      var pstart := Index(start);
      if pstart + cnt > size {
        return false, pstart, size - pstart, true;
      }
      return false, pstart, cnt, false;
    }

    /** Publishes the bytes that stand at the producer's cursor. */
    method WriteCommit(n: nat) returns (r: Outcome<nat>)
      requires Valid()
      modifies this
      ensures Valid() && ccur == old(ccur)
      ensures size > 0 && r == if old(pcur) + n > ccur + size then Waits else Done(n)
      ensures stream == if r.Done? then old(stream) + Around(buf[..], old(pcur), n) else old(stream)
    {
      IndexWraps(0);
      var waits, start, cnt := WaitForWriteSpace(n);
      if waits {
        return Waits;
      }
      ghost var bytes := Around(buf[..], start, n);
      forall i | ccur <= i < pcur + n ensures buf[i % size] == (stream + bytes)[i] {
        if i >= pcur {
          assert bytes[i - pcur] == buf[(start + (i - pcur)) % size];
        }
      }
      pcur := start + cnt;
      stream := stream + bytes;
      return Done(cnt);
    }

    /** Fills a slice of the ring, as an encoder or the network does. */
    method Fill(at: nat, bytes: Data)
      requires Valid() && at + |bytes| <= size
      requires pcur + |bytes| <= ccur + size && at == pcur % size
      modifies buf
      ensures Valid()
      ensures size > 0 && Around(buf[..], pcur, |bytes|) == bytes
    {
      IndexWraps(0);
      ghost var was := buf[..];
      forall k | 0 <= k < |bytes| {
        buf[at + k] := bytes[k];
      }
      ghost var now := buf[..];
      assert forall k :: 0 <= k < |bytes| ==> now[at + k] == bytes[k];
      assert forall k :: 0 <= k < size && !(at <= k < at + |bytes|) ==> now[k] == was[k];
      Filled(was, now, ccur, pcur, stream, bytes);
    }

    /** One turn of ReadFrom: `incoming` is what the network has to give. */
    method ReadFromOnce(incoming: Data) returns (waits: bool, n: nat)
      requires Valid() && size >= BLOCK
      modifies this, buf
      ensures Valid() && ccur == old(ccur)
      ensures waits <==> old(pcur) + BLOCK > ccur + size
      ensures waits ==> n == 0
      ensures !waits ==> n == Min(|incoming|, Min(BLOCK, size - old(pcur) % size))
      ensures n <= |incoming| && stream == old(stream) + incoming[..n]
    {
      IndexWraps(pcur);
      var start, cnt;
      waits, start, cnt := WaitForWriteSpace(BLOCK);
      if waits {
        assert stream + incoming[..0] == stream;
        return true, 0;
      }
      var pstart := Index(start);
      var pend := pstart + cnt;
      if pend > size {
        pend := size;
      }
      n := Min(|incoming|, pend - pstart);
      Fill(pstart, incoming[..n]);
      if n > 0 {
        var r := WriteCommit(n);
      } else {
        assert stream + incoming[..0] == stream;
      }
    }

    // ---------- the consumer ----------

    method Read(p: array<Byte>) returns (r: Outcome<nat>)
      requires Valid() && p != buf
      modifies this`ccur, p
      ensures Valid()
      ensures r == Waits <==> old(ccur) == pcur
      ensures r.Waits? || r.Done?
      ensures r.Done? ==>
        && r.value == ReadCount(size, old(ccur), pcur, p.Length)
        && var unread, room := pcur - old(ccur), size - old(ccur) % size;
          r.value <= p.Length && r.value <= unread && r.value <= room && r.value in {p.Length, unread, room}
      ensures r.Done? ==>
        && r.value <= p.Length && ccur == old(ccur) + r.value
        && p[..r.value] == old(Unread())[..r.value] && Unread() == old(Unread())[r.value..]
    {
      var cpos, ppos := ccur, pcur;
      IndexWraps(cpos);
      var cindex := Index(cpos);
      if cpos + p.Length < ppos {
        var n := Min(p.Length, size - cindex);
        CopyOut(p, cindex, n);
        ccur := cpos + n;
        return Done(n);
      }
      if cpos < ppos {
        var b := ppos - cpos;
        var n := if cindex + b < size then Min(p.Length, b) else Min(p.Length, size - cindex);
        CopyOut(p, cindex, n);
        ccur := cpos + n;
        return Done(n);
      }
      return Waits;
    }

    method CopyOut(p: array<Byte>, cindex: nat, n: nat)
      requires Valid() && p != buf && size > 0 && cindex == ccur % size
      requires n <= p.Length && cindex + n <= size && ccur + n <= pcur
      modifies p
      ensures Valid() && p[..n] == Unread()[..n]
    {
      forall k | 0 <= k < n {
        p[k] := buf[cindex + k];
      }
      forall k | 0 <= k < n ensures p[k] == stream[ccur + k] {
        InPlace(size, ccur, k);
        assert buf[(ccur + k) % size] == stream[ccur + k];
      }
    }

    /** A slice of the ring from the consumer's cursor, put together in tmp when it wraps. */
    method Slice(n: nat) returns (b: Data)
      requires Valid() && ccur + n <= pcur
      modifies this`tmp
      ensures Valid() && b == Unread()[..n]
    {
      IndexWraps(ccur);
      UnreadAround(n);
      AroundPieces(buf[..], ccur, n);
      var cindex := Index(ccur);
      if cindex + n > size {
        var l := size - cindex;
        tmp := buf[cindex..];
        tmp := tmp + buf[..n - l];
        return tmp;
      }
      return buf[cindex..cindex + n];
    }

    /** Up to n bytes without moving the cursor; `short` when there are fewer. */
    method ReadPeek(n: nat) returns (r: Outcome<Data>, short: bool)
      requires Valid()
      modifies this`tmp
      ensures Valid()
      ensures n > size <==> r == BufferFull
      ensures n <= size && ccur == pcur <==> r == Waits
      ensures r.Done? ==> r.value == Unread()[..Min(n, pcur - ccur)] && (short <==> pcur - ccur < n)
    {
      short := false;
      if n > size {
        return BufferFull, short;
      }
      var cpos, ppos := ccur, pcur;
      if cpos >= ppos {
        return Waits, short;
      }
      var m := ppos - cpos;
      if m >= n {
        m := n;
      } else {
        short := true;
      }
      var b := Slice(m);
      return Done(b), short;
    }

    /** Exactly n bytes without moving the cursor. */
    method ReadWait(n: nat) returns (r: Outcome<Data>)
      requires Valid()
      modifies this`tmp
      ensures Valid()
      ensures r == if n > size then BufferFull else if pcur < ccur + n then Waits else Done(Unread()[..n])
    {
      if n > size {
        return BufferFull;
      }
      var next := ccur + n;
      if next > pcur {
        return Waits;
      }
      var b := Slice(n);
      return Done(b);
    }

    /** Moves the consumer's cursor over n bytes, if they are there. */
    method ReadCommit(n: nat) returns (r: Outcome<nat>, insufficient: bool)
      requires Valid()
      modifies this`ccur
      ensures Valid()
      ensures r == if n > size then BufferFull else if pcur < old(ccur) + n then Waits else Done(n)
      ensures insufficient <==> r == Waits
      ensures Unread() == if r.Done? then old(Unread())[n..] else old(Unread())
    {
      if n > size {
        return BufferFull, false;
      }
      if ccur + n <= pcur {
        ccur := ccur + n;
        return Done(n), false;
      }
      return Waits, true;
    }
  }

  lemma Filled(was: Data, now: Data, cpos: nat, ppos: nat, stream: Data, bytes: Data)
    requires 0 < |was| == |now| && cpos <= ppos == |stream| && ppos + |bytes| <= cpos + |was|
    requires ppos % |was| + |bytes| <= |was|
    requires forall i :: cpos <= i < ppos ==> was[i % |was|] == stream[i]
    requires forall k :: 0 <= k < |bytes| ==> now[ppos % |was| + k] == bytes[k]
    requires forall k :: 0 <= k < |was| && !(ppos % |was| <= k < ppos % |was| + |bytes|) ==> now[k] == was[k]
    ensures forall i :: cpos <= i < ppos ==> now[i % |was|] == stream[i]
    ensures Around(now, ppos, |bytes|) == bytes
  {
    AroundPieces(now, ppos, |bytes|);
    forall i | cpos <= i < ppos ensures now[i % |was|] == stream[i] {
      OutOfRun(|was|, i, ppos, |bytes|);
    }
  }

  /** Writing behind the unread bytes leaves them and puts the new ones after them. */
  lemma Appended(was: Data, now: Data, size: nat, cpos: nat, ppos: nat, stream: Data, bytes: Data)
    requires 0 < size == |was| == |now| && cpos <= ppos == |stream| && ppos + |bytes| <= cpos + size
    requires forall i :: cpos <= i < ppos ==> was[i % size] == stream[i]
    requires forall j :: 0 <= j < |bytes| ==> now[(ppos % size + j) % size] == bytes[j]
    requires forall k :: 0 <= k < size && !InRun(size, ppos % size, |bytes|, k) ==> now[k] == was[k]
    ensures forall i :: cpos <= i < ppos + |bytes| ==> now[i % size] == (stream + bytes)[i]
  {
    var at := ppos % size;
    forall i | cpos <= i < ppos + |bytes| ensures now[i % size] == (stream + bytes)[i] {
      if i < ppos {
        OutOfRun(size, i, ppos, |bytes|);
      } else {
        InPlace(size, ppos, i - ppos);
        WrapIndex(size, at, i - ppos);
      }
    }
  }

  lemma OutOfRun(size: nat, i: nat, ppos: nat, n: nat)
    requires size > 0 && i < ppos && ppos + n <= i + size
    ensures !InRun(size, ppos % size, n, i % size)
  {
    var at, k := ppos % size, i % size;
    if InRun(size, at, n, k) {
      var j := if at <= k then k - at else k + size - at;
      InPlace(size, ppos, j);
      SlotsApart(size, i, ppos + j);
    }
  }
}
