/**
  The processor's reads and the sender's writes of sendrecv.go, on the rings of buffer.go.
 */
module SendRecv {
  import opened Bytes
  import opened Buffers
  import opened Framing
  import Ring

  datatype SizeResult = Sized(mtype: nat, total: nat) | Waiting | FourthByteContinues

  /** peekMessageSize: two bytes, then one more for each continuation bit, up to five. */
  method PeekMessageSize(input: Buffer) returns (r: SizeResult)
    requires input.Valid() && input.size >= 2 * Ring.BLOCK
    modifies input`tmp
    ensures input.Valid() && input.Unread() == old(input.Unread())
    ensures var u := input.Unread();
      r == match PeekSize(u)
           case NeedMore(_) => Waiting
           case TooLong => FourthByteContinues
           case Size(total) => Sized(if u == [] then 0 else u[0] / 16, total)
  {
    ghost var u := input.Unread();
    var cnt := 2;
    var b: Data := [];
    while true
      invariant 2 <= cnt <= 6 && input.Valid() && input.Unread() == u
      invariant PeekSize(u) == PeekFrom(u, cnt)
      decreases 6 - cnt
    {
      if cnt > 5 {
        return FourthByteContinues;
      }
      var peeked := input.ReadWait(cnt);
      if !peeked.Done? {
        return Waiting;
      }
      b := peeked.value;
      if b[cnt - 1] >= 0x80 {
        cnt := cnt + 1;
      } else {
        break;
      }
    }
    assert b[1..] == u[1..cnt];
    var remlen := Uvarint(b[1..]);
    var total := remlen + 1 + (cnt - 1);
    return Sized(b[0] / 16, total);
  }

  /** peekMessage: the bytes of the whole packet, still uncommitted. */
  method PeekMessage(input: Buffer, total: nat) returns (r: Outcome<Data>)
    requires input.Valid()
    modifies input`tmp
    ensures input.Valid() && input.Unread() == old(input.Unread())
    ensures r == if total > input.size then BufferFull
                 else if |input.Unread()| < total then Waits
                 else Done(input.Unread()[..total])
  {
    r := input.ReadWait(total);
  }

  /** One turn of the processor: the next packet, committed, if it is all there. */
  method NextPacket(input: Buffer) returns (r: Outcome<Data>, broken: bool)
    requires input.Valid() && input.size >= 2 * Ring.BLOCK
    modifies input`tmp, input`ccur
    ensures input.Valid()
    ensures r.Done? ==> Framed(r.value) && old(input.Unread()) == r.value + input.Unread()
    ensures !r.Done? ==> input.Unread() == old(input.Unread())
    ensures forall p, rest :: Framed(p) && |p| <= input.size && old(input.Unread()) == p + rest ==> r == Done(p)
  {
    ghost var u := input.Unread();
    forall p, rest | Framed(p) && u == p + rest ensures PeekSize(u) == Size(|p|) && u[..|p|] == p {
      FramedPeek(p, rest);
    }
    broken := false;
    var size := PeekMessageSize(input);
    if size.Waiting? {
      return Waits, false;
    }
    if size.FourthByteContinues? {
      return Waits, true;
    }
    r := PeekMessage(input, size.total);
    if r.Done? {
      PeekPrefix(u, 2);
      PeekFramed(r.value, 2);
      var committed, _ := input.ReadCommit(size.total);
      assert u == r.value + input.Unread();
    }
  }

  /** The ring branch of writeMessage for a message with this encoding: in place when it
      does not wrap, through a buffer of its own when it does. */
  method WriteMessage(output: Buffer, encoding: Data) returns (r: Outcome<nat>)
    requires output.Valid()
    modifies output, output.buf
    ensures output.Valid() && output.ccur == old(output.ccur)
    ensures r == if old(output.pcur) + |encoding| > output.ccur + output.size then Waits else Done(|encoding|)
    ensures output.stream == if r.Done? then old(output.stream) + encoding else old(output.stream)
  {
    var l := |encoding|;
    var waits, at, len, wrap := output.WriteWait(l);
    if waits {
      return Waits;
    }
    if wrap {
      var outtmp := encoding;
      r := output.Write(outtmp);
    } else {
      output.Fill(at, encoding);
      r := output.WriteCommit(l);
    }
  }
}
