/**
 * The receive ring buffer `data_rx` of the UART handler, as a pure view.
 *
 * The buffer macros (BUFFER_IN, BUFFER_OUT, *_MOVE, IS_BUFFER_FULL/EMPTY,
 * BUFFER_USED_SIZE, IS_BUFFER_OUT_SEPARATED, BUFFER_OUT_1ST_SIZE,
 * BUFFER_CLEAR) come from a header that is not part of this model. They are
 * modelled on a storage of capacity n, a read cursor `rd`, a write cursor
 * and an explicit count `used` of unread bytes; the write cursor is always
 * the read cursor advanced by `used`.
 *
 * This module also models the memcpy calls of the bulk read `uart_gets`,
 * both as the source writes them and as they are evidently intended.
 */
module RingBuf {

  function Min(a: nat, b: nat): (m: nat)
    ensures m <= a && m <= b && (m == a || m == b)
  {
    if a < b then a else b
  }

  /** BUFFER_IN_MOVE / BUFFER_OUT_MOVE: a cursor moved on by k places, modulo n. */
  function Advance(cursor: nat, k: nat, n: nat): (r: nat)
    requires cursor < n && k <= n
    ensures r < n
  {
    if cursor + k < n then cursor + k else cursor + k - n
  }

  /**
   * The unread bytes, oldest first: `used` bytes starting at the read
   * cursor, wrapping round from the physical end to the start.
   */
  function Contents(ring: seq<bv8>, rd: nat, used: nat): (c: seq<bv8>)
    requires rd < |ring| && used <= |ring|
    ensures |c| == used
    ensures forall i :: 0 <= i < used ==> c[i] == ring[Advance(rd, i, |ring|)]
  {
    if rd + used <= |ring| then ring[rd..rd + used]
    else ring[rd..] + ring[..rd + used - |ring|]
  }

  /** BUFFER_IN then BUFFER_IN_MOVE(1): storing at the write cursor appends the byte. */
  lemma {:induction false} PushAppends(ring: seq<bv8>, rd: nat, used: nat, b: bv8)
    requires rd < |ring| && used < |ring|
    ensures Contents(ring[Advance(rd, used, |ring|) := b], rd, used + 1)
         == Contents(ring, rd, used) + [b]
  {
    var n := |ring|;
    var wr := Advance(rd, used, n);
    var after := Contents(ring[wr := b], rd, used + 1);
    var want := Contents(ring, rd, used) + [b];
    forall i | 0 <= i < used + 1
      ensures after[i] == want[i]
    {
      if i < used {
        assert Advance(rd, i, n) != wr;
      }
    }
  }

  /** BUFFER_OUT_MOVE(k): moving the read cursor on by k drops the k oldest bytes. */
  lemma {:induction false} PopDrops(ring: seq<bv8>, rd: nat, used: nat, k: nat)
    requires rd < |ring| && k <= used <= |ring|
    ensures Contents(ring, Advance(rd, k, |ring|), used - k) == Contents(ring, rd, used)[k..]
  {
    var n := |ring|;
    var after := Contents(ring, Advance(rd, k, n), used - k);
    var want := Contents(ring, rd, used)[k..];
    forall i | 0 <= i < used - k
      ensures after[i] == want[i]
    {
      assert Advance(Advance(rd, k, n), i, n) == Advance(rd, k + i, n);
    }
  }

  /** Two successive BUFFER_OUT_MOVEs drop the a + b oldest bytes, as one move by a + b would. */
  lemma PopsCompose(ring: seq<bv8>, rd: nat, used: nat, a: nat, b: nat)
    requires rd < |ring| && a + b <= used <= |ring|
    ensures Advance(Advance(rd, a, |ring|), b, |ring|) == Advance(rd, a + b, |ring|)
    ensures Contents(ring, Advance(rd, a + b, |ring|), used - (a + b)) == Contents(ring, rd, used)[a + b..]
  {
    PopDrops(ring, rd, used, a + b);
  }

  /** IS_BUFFER_OUT_SEPARATED: the unread bytes run past the physical end of the storage. */
  predicate Separated(n: nat, rd: nat, used: nat)
  {
    rd + used > n
  }

  /** One `memcpy(buf + dstOff, &storage[srcOff], len)` of the bulk read. */
  datatype MemCopy = MemCopy(dstOff: nat, srcOff: nat, len: nat)

  function CopiedBytes(cs: seq<MemCopy>): (total: nat)
  {
    if cs == [] then 0 else cs[0].len + CopiedBytes(cs[1..])
  }

  /**
   * The memcpy calls of `uart_gets` on the data UART, as the source writes
   * them: `len1st` takes the first-segment size whenever the buffer is
   * separated, even when that segment already covers the request, and the
   * second copy then starts at `buf + len1st`.
   */
  function GetsCopiesAsWritten(n: nat, rd: nat, used: nat, req: nat): (cs: seq<MemCopy>)
    requires rd < n && used <= n
    ensures CopiedBytes(cs) == Min(used, req)
    ensures forall i :: 0 <= i < |cs| ==> cs[i].srcOff + cs[i].len <= n
  {
    var total := Min(used, req);
    var len1st := if Separated(n, rd, used) then n - rd else 0;
    if Separated(n, rd, used) && len1st < total then
      var cs := [MemCopy(0, rd, len1st), MemCopy(len1st, Advance(rd, len1st, n), total - len1st)];
      assert cs[1..][1..] == [];
      assert CopiedBytes(cs[1..]) == cs[1].len;
      cs
    else
      [MemCopy(len1st, rd, total)]
  }

  /**
   * The memcpy calls as intended: the first segment goes to `buf[0..]`
   * when the request reaches past the physical end, the rest follows it;
   * otherwise one copy to `buf[0..]`.
   */
  function GetsCopies(n: nat, rd: nat, used: nat, req: nat): (cs: seq<MemCopy>)
    requires rd < n && used <= n
    ensures CopiedBytes(cs) == Min(used, req)
    ensures forall i :: 0 <= i < |cs| ==> cs[i].srcOff + cs[i].len <= n
  {
    var total := Min(used, req);
    if Separated(n, rd, used) && n - rd < total then
      var cs := [MemCopy(0, rd, n - rd), MemCopy(n - rd, Advance(rd, n - rd, n), total - (n - rd))];
      assert cs[1..][1..] == [];
      assert CopiedBytes(cs[1..]) == cs[1].len;
      cs
    else
      [MemCopy(0, rd, total)]
  }

  /** The effect of one memcpy on the destination; None when it would write or read out of bounds. */
  function RunCopy(dst: seq<bv8>, src: seq<bv8>, c: MemCopy): (r: Option<seq<bv8>>)
    ensures r.Some? <==> c.len == 0 || (c.dstOff + c.len <= |dst| && c.srcOff + c.len <= |src|)
    ensures r.Some? ==> |r.value| == |dst|
  {
    if c.len == 0 then Some(dst)
    else if c.dstOff + c.len <= |dst| && c.srcOff + c.len <= |src| then
      Some(dst[..c.dstOff] + src[c.srcOff..c.srcOff + c.len] + dst[c.dstOff + c.len..])
    else None
  }

  function RunCopies(dst: seq<bv8>, src: seq<bv8>, cs: seq<MemCopy>): (r: Option<seq<bv8>>)
    ensures r.Some? ==> |r.value| == |dst|
    decreases |cs|
  {
    if cs == [] then Some(dst)
    else match RunCopy(dst, src, cs[0])
      case None => None
      case Some(d) => RunCopies(d, src, cs[1..])
  }

  datatype Option<T> = None | Some(value: T)

  /** The two shapes of the intended copy plan. */
  lemma GetsCopiesCases(n: nat, rd: nat, used: nat, req: nat)
    requires rd < n && used <= n
    ensures var total := Min(used, req);
            GetsCopies(n, rd, used, req)
              == if Separated(n, rd, used) && n - rd < total
                 then [MemCopy(0, rd, n - rd), MemCopy(n - rd, 0, total - (n - rd))]
                 else [MemCopy(0, rd, total)]
  {
  }

  lemma RunOneCopy(d0: seq<bv8>, src: seq<bv8>, c: MemCopy, d1: seq<bv8>)
    requires RunCopy(d0, src, c) == Some(d1)
    ensures RunCopies(d0, src, [c]) == Some(d1)
  {
    assert [c][1..] == [];
  }

  lemma RunTwoCopies(d0: seq<bv8>, src: seq<bv8>, c1: MemCopy, c2: MemCopy, d1: seq<bv8>, d2: seq<bv8>)
    requires RunCopy(d0, src, c1) == Some(d1) && RunCopy(d1, src, c2) == Some(d2)
    ensures RunCopies(d0, src, [c1, c2]) == Some(d2)
  {
    assert [c1, c2][1..] == [c2];
    RunOneCopy(d1, src, c2, d2);
  }

  /**
   * The intended bulk read delivers the min(used, req) oldest bytes, in
   * push order, to `buf[0..]`, and leaves the rest of `buf` alone.
   */
  lemma {:induction false} GetsDeliversInOrder(ring: seq<bv8>, rd: nat, used: nat, req: nat, dst: seq<bv8>)
    requires rd < |ring| && used <= |ring|
    requires Min(used, req) <= |dst|
    ensures var k := Min(used, req);
            var out := RunCopies(dst, ring, GetsCopies(|ring|, rd, used, req));
            && out.Some?
            && out.value[..k] == Contents(ring, rd, used)[..k]
            && out.value[k..] == dst[k..]
  {
    if Separated(|ring|, rd, used) && |ring| - rd < Min(used, req) {
      GetsDeliversWrapped(ring, rd, used, req, dst);
    } else {
      GetsDeliversStraight(ring, rd, used, req, dst);
    }
  }

  /** The two-copy case: the request reaches past the physical end of the storage. */
  lemma {:induction false} GetsDeliversWrapped(ring: seq<bv8>, rd: nat, used: nat, req: nat, dst: seq<bv8>)
    requires rd < |ring| && used <= |ring|
    requires Min(used, req) <= |dst|
    requires Separated(|ring|, rd, used) && |ring| - rd < Min(used, req)
    ensures var k := Min(used, req);
            var out := RunCopies(dst, ring, GetsCopies(|ring|, rd, used, req));
            && out.Some?
            && out.value[..k] == Contents(ring, rd, used)[..k]
            && out.value[k..] == dst[k..]
  {
    var n := |ring|;
    var k := Min(used, req);
    var c := Contents(ring, rd, used);
    var l := n - rd;
    var d1 := dst[..0] + ring[rd..n] + dst[l..];
    assert RunCopy(dst, ring, MemCopy(0, rd, l)) == Some(d1);
    var d2 := d1[..l] + ring[0..k - l] + d1[k..];
    assert RunCopy(d1, ring, MemCopy(l, 0, k - l)) == Some(d2);
    var cs := GetsCopies(n, rd, used, req);
    assert cs[1..][1..] == [];
    assert RunCopies(d2, ring, []) == Some(d2);
    assert RunCopies(d1, ring, cs[1..]) == Some(d2);
    assert RunCopies(dst, ring, cs) == Some(d2);
    assert d2[..k] == ring[rd..n] + ring[0..k - l];
    assert c == ring[rd..] + ring[..rd + used - n];
    assert c[..k] == ring[rd..n] + ring[0..k - l];
  }

  /** The one-copy case: the request ends before the physical end of the storage. */
  lemma {:induction false} GetsDeliversStraight(ring: seq<bv8>, rd: nat, used: nat, req: nat, dst: seq<bv8>)
    requires rd < |ring| && used <= |ring|
    requires Min(used, req) <= |dst|
    requires !(Separated(|ring|, rd, used) && |ring| - rd < Min(used, req))
    ensures var k := Min(used, req);
            var out := RunCopies(dst, ring, GetsCopies(|ring|, rd, used, req));
            && out.Some?
            && out.value[..k] == Contents(ring, rd, used)[..k]
            && out.value[k..] == dst[k..]
  {
    var n := |ring|;
    var k := Min(used, req);
    var c := Contents(ring, rd, used);
    if k > 0 {
      var d1 := dst[..0] + ring[rd..rd + k] + dst[k..];
      assert RunCopy(dst, ring, MemCopy(0, rd, k)) == Some(d1);
      assert RunCopies(d1, ring, []) == Some(d1);
      assert RunCopies(dst, ring, GetsCopies(n, rd, used, req)) == Some(d1);
      forall i | 0 <= i < k
        ensures d1[i] == c[i]
      {
        assert rd + i < n;
      }
    } else {
      assert RunCopies(dst, ring, GetsCopies(n, rd, used, req)) == Some(dst);
    }
  }

  /**
   * The source's bulk read differs from the intended one in exactly one
   * case: the buffer is separated, something is to be delivered, and the
   * first segment already covers the request. There the single copy starts
   * at `buf + (n - rd)` instead of `buf`.
   */
  lemma GetsAsWrittenDiffersOnlyThere(n: nat, rd: nat, used: nat, req: nat)
    requires rd < n && used <= n
    ensures var k := Min(used, req);
            if Separated(n, rd, used) && 0 < k <= n - rd then
              GetsCopiesAsWritten(n, rd, used, req) == [MemCopy(n - rd, rd, k)] && n - rd > 0
            else
              forall dst: seq<bv8>, src: seq<bv8> ::
                RunCopies(dst, src, GetsCopiesAsWritten(n, rd, used, req))
                  == RunCopies(dst, src, GetsCopies(n, rd, used, req))
  {
  }

  /**
   * A concrete instance: capacity 4, read cursor 2, three unread bytes
   * (so the buffer is wrapped), one byte requested. The source copies the
   * oldest byte to `buf[2]`: a one-byte destination is overrun, and in a
   * three-byte destination `buf[0]` does not receive the oldest byte.
   */
  lemma GetsAsWrittenMisplacesOldestByte()
    ensures var ring: seq<bv8> := [1, 2, 3, 4];
            && Separated(4, 2, 3)
            && Contents(ring, 2, 3) == [3, 4, 1]
            && GetsCopiesAsWritten(4, 2, 3, 1) == [MemCopy(2, 2, 1)]
            && RunCopies([0], ring, GetsCopiesAsWritten(4, 2, 3, 1)) == None
            && RunCopies([0, 0, 0], ring, GetsCopiesAsWritten(4, 2, 3, 1)) == Some([0, 0, 3])
            && RunCopies([0, 0, 0], ring, GetsCopies(4, 2, 3, 1)) == Some([3, 0, 0])
  {
    var ring: seq<bv8> := [1, 2, 3, 4];
    assert ring[2..] + ring[..1] == [3, 4, 1];
    assert RunCopy([0], ring, MemCopy(2, 2, 1)) == None;
    var d: seq<bv8> := [0, 0, 0];
    assert d[..2] + ring[2..3] + d[3..] == [0, 0, 3];
    assert d[..0] + ring[2..3] + d[1..] == [3, 0, 0];
  }
}
