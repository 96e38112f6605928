/**
  Packets in a byte stream: what peekMessageSize of sendrecv.go makes of the unread bytes.
 */
module Framing {
  import opened Bytes

  /** NeedMore: so many bytes must be there first. TooLong: a fifth continuation bit. */
  datatype Peeked = NeedMore(cnt: nat) | TooLong | Size(total: nat)

  /** The peek loop from `cnt` bytes on. */
  function PeekFrom(u: Data, cnt: nat): Peeked
    requires cnt >= 2
    decreases 6 - cnt
  {
    if cnt > 5 then TooLong
    else if |u| < cnt then NeedMore(cnt)
    else if u[cnt - 1] >= 0x80 then PeekFrom(u, cnt + 1)
    else Size(Uvarint(u[1..cnt]) + cnt)
  }

  function PeekSize(u: Data): Peeked {
    PeekFrom(u, 2)
  }

  /** A control packet of section 2.1 of MQTT Version 5.0: a first byte, a remaining length
      of one to four bytes, and just as many bytes as it says. */
  ghost predicate Framed(p: Data) {
    exists cnt: nat :: FramedAt(p, cnt)
  }

  predicate FramedAt(p: Data, cnt: nat) {
    && 2 <= cnt <= 5 && cnt <= |p|
    && (forall j :: 1 <= j < cnt - 1 ==> p[j] >= 0x80)
    && p[cnt - 1] < 0x80
    && |p| == cnt + Uvarint(p[1..cnt])
  }

  /** The bytes 1 to cnt - 2 carry continuation bits. */
  predicate Continued(u: Data, cnt: nat) {
    2 <= cnt <= |u| + 1 && forall j :: 1 <= j < cnt - 1 ==> u[j] >= 0x80
  }

  lemma {:induction false} PeekPast(u: Data, cnt: nat)
    requires cnt <= 6 && (cnt == 2 || Continued(u, cnt))
    ensures cnt >= 2 ==> PeekSize(u) == PeekFrom(u, cnt)
  {
    if cnt > 2 {
      assert u[cnt - 2] >= 0x80;
      PeekPast(u, cnt - 1);
    }
  }

  /** A framed packet, whatever follows it, is sized as itself. */
  lemma FramedPeek(p: Data, rest: Data)
    requires Framed(p)
    ensures PeekSize(p + rest) == Size(|p|)
  {
    var cnt: nat :| FramedAt(p, cnt);
    var u := p + rest;
    assert Continued(u, cnt);
    PeekPast(u, cnt);
    assert u[1..cnt] == p[1..cnt];
  }

  /** A size is refused exactly when all of the bytes 1 to 4 carry continuation bits. */
  lemma RefusedSizes(u: Data)
    ensures PeekSize(u).TooLong? <==> |u| >= 5 && forall j :: 1 <= j < 5 ==> u[j] >= 0x80
  {
    assert PeekFrom(u, 6) == TooLong;
    assert PeekFrom(u, 5).TooLong? <==> |u| >= 5 && u[4] >= 0x80;
    assert PeekFrom(u, 4).TooLong? <==> |u| >= 5 && u[3] >= 0x80 && u[4] >= 0x80;
    assert PeekFrom(u, 3).TooLong? <==> |u| >= 5 && u[2] >= 0x80 && u[3] >= 0x80 && u[4] >= 0x80;
  }

  /** Being sized as itself is being framed. */
  lemma {:induction false} PeekFramed(p: Data, cnt: nat)
    requires 2 <= cnt <= 5 && (cnt == 2 || Continued(p, cnt)) && PeekFrom(p, cnt) == Size(|p|)
    ensures Framed(p)
    decreases 6 - cnt
  {
    if p[cnt - 1] >= 0x80 {
      PeekFramed(p, cnt + 1);
    } else {
      assert FramedAt(p, cnt);
    }
  }

  /** A decided size does not change when more bytes come. */
  lemma {:induction false} PeekStable(u: Data, v: Data, cnt: nat)
    requires cnt >= 2 && !PeekFrom(u, cnt).NeedMore?
    ensures PeekFrom(u + v, cnt) == PeekFrom(u, cnt)
    decreases 6 - cnt
  {
    if cnt <= 5 {
      assert (u + v)[cnt - 1] == u[cnt - 1];
      if u[cnt - 1] >= 0x80 {
        PeekStable(u, v, cnt + 1);
      } else {
        assert (u + v)[1..cnt] == u[1..cnt];
      }
    }
  }

  /** The bytes up to the size decide it. */
  lemma {:induction false} PeekPrefix(u: Data, cnt: nat)
    requires cnt >= 2 && PeekFrom(u, cnt).Size?
    ensures PeekFrom(u, cnt).total >= cnt
    ensures PeekFrom(u, cnt).total <= |u| ==> PeekFrom(u[..PeekFrom(u, cnt).total], cnt) == PeekFrom(u, cnt)
    decreases 6 - cnt
  {
    if u[cnt - 1] >= 0x80 {
      PeekPrefix(u, cnt + 1);
    } else {
      var total := Uvarint(u[1..cnt]) + cnt;
      if total <= |u| {
        assert u[..total][1..cnt] == u[1..cnt];
      }
    }
  }

  /** On the way into a framed packet the peek asks for no more than the packet has, or
      decides its size. */
  lemma PeekWithin(u: Data, p: Data, rest: Data)
    requires Framed(p) && u <= p + rest
    ensures PeekSize(u) == Size(|p|) || (PeekSize(u).NeedMore? && |u| < PeekSize(u).cnt <= |p|)
  {
    var cnt: nat :| FramedAt(p, cnt);
    FramedPeek(p, rest);
    var v := (p + rest)[|u|..];
    assert u + v == p + rest;
    if !PeekSize(u).NeedMore? {
      PeekStable(u, v, 2);
    } else {
      NeedsHeader(u, p, rest, cnt, 2);
    }
  }

  lemma {:induction false} NeedsHeader(u: Data, p: Data, rest: Data, cnt: nat, at: nat)
    requires FramedAt(p, cnt) && u <= p + rest && 2 <= at <= cnt && PeekFrom(u, at).NeedMore?
    ensures |u| < PeekFrom(u, at).cnt <= cnt
    decreases 6 - at
  {
    if |u| >= at {
      assert u[at - 1] == p[at - 1];
      NeedsHeader(u, p, rest, cnt, at + 1);
    }
  }

  ghost predicate AllFramed(packets: seq<Data>) {
    forall i :: 0 <= i < |packets| ==> Framed(packets[i])
  }

  lemma FramedNonempty(p: Data)
    requires Framed(p)
    ensures |p| >= 2
  {
  }

  /** A stream is cut into framed packets in one way only. */
  lemma {:induction false} OneCut(a: seq<Data>, b: seq<Data>)
    requires AllFramed(a) && AllFramed(b) && Concat(a) <= Concat(b)
    ensures |a| <= |b| && a == b[..|a|]
  {
    if a != [] {
      FramedNonempty(a[0]);
      assert a[0] <= Concat(a) <= Concat(b);
      assert b != [];
      FramedPeek(a[0], Concat(a[1..]));
      FramedPeek(b[0], Concat(b[1..]));
      var tail := Concat(b)[|Concat(a)|..];
      assert Concat(a) + tail == Concat(b);
      PeekStable(Concat(a), tail, 2);
      assert a[0] == Concat(b)[..|a[0]|] == b[0];
      assert Concat(a[1..]) == Concat(a)[|a[0]|..];
      assert Concat(b[1..]) == Concat(b)[|b[0]|..];
      OneCut(a[1..], b[1..]);
      assert a == [a[0]] + a[1..] && b[..|a|] == [b[0]] + b[1..][..|a| - 1];
    }
  }
}
