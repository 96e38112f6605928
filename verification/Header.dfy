/**
  The fixed header of section 2.1 of MQTT Version 5.0: header.go.
 */
module Headers {
  import opened Bytes
  import opened Varints
  import opened Fields

  const PUBLISH := 3
  const SUBSCRIBE := 8

  /** The first byte and the remaining length. */
  function Header(first: Byte, remlen: nat): Data {
    [first] + Varint(remlen)
  }

  /** msglen. */
  method MsgLen(remlen: nat) returns (total: nat)
    requires remlen <= MAX_REMAINING
    ensures forall first :: total == |Header(first, remlen)|
  {
    VarintSize(remlen);
    total := 1;
    if remlen <= 127 {
      total := total + 1;
    } else if remlen <= 16383 {
      total := total + 2;
    } else if remlen <= 2097151 {
      total := total + 3;
    } else {
      total := total + 4;
    }
  }

  predicate TypeValid(first: Byte) {
    0 < first / 16 < 16
  }

  method EncodeHeader(dst: array<Byte>, first: Byte, remlen: nat, ghost was: Data) returns (total: nat, err: bool)
    requires remlen <= MAX_REMAINING && dst[..] == was
    modifies dst
    ensures err <==> dst.Length < |Header(first, remlen)| || first < 0x10
    ensures err ==> total == 0 && dst[..] == was
    ensures !err ==> Filled(dst[..], was, Header(first, remlen)) && total == |Header(first, remlen)|
  {
    var ml := MsgLen(remlen);
    assert ml == |Header(first, remlen)|;
    if dst.Length < ml {
      return 0, true;
    }
    if !TypeValid(first) {
      return 0, true;
    }
    total := PutByte(dst, 0, first, was, []);
    var rest := remlen;
    ghost var w: Data := [first];
    while rest >= 0x80
      invariant w + Varint(rest) == Header(first, remlen)
      invariant Filled(dst[..], was, w) && total == |w|
    {
      assert Varint(rest) == [rest % 128 + 0x80] + Varint(rest / 128);
      total := PutByte(dst, total, rest % 128 + 0x80, was, w);
      w := w + [rest % 128 + 0x80];
      rest := rest / 128;
    }
    total := PutByte(dst, total, rest, was, w);
    return total, false;
  }

  method BufHeader(buf: ByteBuffer, first: Byte, remlen: nat) returns (err: bool)
    requires remlen <= MAX_REMAINING
    modifies buf
    ensures err <==> first < 0x10
    ensures buf.data == if err then old(buf.data) else old(buf.data) + Header(first, remlen)
  {
    if !TypeValid(first) {
      return true;
    }
    buf.WriteByte(first);
    var n := PutUvarint(buf, remlen);
    assert old(buf.data) + [first] + Varint(remlen) == old(buf.data) + Header(first, remlen);
    return false;
  }

  datatype Head = Head(first: Byte, remlen: nat)

  /** Whether the first byte is one of this message type: any flags but QoS 3 for PUBLISH,
      the fixed ones otherwise. */
  predicate FirstOk(first: Byte, mtype: nat, flags: nat) {
    TypeValid(first) && first / 16 == mtype &&
    if mtype == PUBLISH then first / 2 % 4 != 3 else first % 16 == flags
  }

  /** decode. The length is read as 64 bits and kept as 32. */
  function ParseHeader(src: Data, mtype: nat, flags: nat): (r: Parsed<Head>)
    ensures r.Ok? ==> 2 <= r.n && r.n + r.value.remlen <= |src|
  {
    if src == [] then Panics
    else if !FirstOk(src[0], mtype, flags) then Bad
    else
      match GoUvarint(src[1..], 0)
      case Ok(v, m) =>
        var remlen := v % 0x1_0000_0000;
        if remlen > MAX_REMAINING || v == 0 || remlen > |src| - 1 - m then Bad
        else Ok(Head(src[0], remlen), 1 + m)
      case _ => Bad
  }

  lemma HeaderRoundTrip(first: Byte, mtype: nat, flags: nat, body: Data)
    requires FirstOk(first, mtype, flags) && 0 < |body| <= MAX_REMAINING
    ensures ParseHeader(Header(first, |body|) + body, mtype, flags) == Ok(Head(first, |body|), |Header(first, |body|)|)
  {
    var src := Header(first, |body|) + body;
    GoRoundTrip(|body|, body);
    assert src[1..] == Varint(|body|) + body;
  }

  lemma NineGroups()
    ensures Weight(9) == 0x8000_0000_0000_0000
  {
    assert Weight(3) == 2097152;
    assert Weight(6) == 128 * 128 * 128 * Weight(3);
    assert Weight(9) == 128 * 128 * 128 * Weight(6);
  }

  /** Which packets of which first byte and announced length are taken, for every length
      below 2^63: a length of 2^32 and more is taken for its remainder. */
  lemma HeaderDecides(first: Byte, len: nat, body: Data)
    requires len < 0x8000_0000_0000_0000
    ensures var src, kept, n := Header(first, len) + body, len % 0x1_0000_0000, |Header(first, len)|;
      var taken := len > 0 && kept <= 268435455 && kept <= |body|;
      && ParseHeader(src, PUBLISH, 0) ==
        (if first / 16 == 3 && first / 2 % 4 != 3 && taken then Ok(Head(first, kept), n) else Bad)
      && ParseHeader(src, SUBSCRIBE, 2) ==
        (if first == 0x82 && taken then Ok(Head(first, kept), n) else Bad)
  {
    NineGroups();
    VarintWithin(len, 9);
    GoReads(len, body);
    assert (Header(first, len) + body)[1..] == Varint(len) + body;
    hide GoUvarint, Varint, Weight;
  }

  /** A packet that announces 2^32 + 5 bytes is taken for one of 5. */
  lemma LengthWraps(body: Data)
    requires |body| >= 5
    ensures ParseHeader(Header(0x30, 0x1_0000_0005) + body, PUBLISH, 0) == Ok(Head(0x30, 5), 6)
  {
    HeaderDecides(0x30, 0x1_0000_0005, body);
    hide ParseHeader;
    VarintSize(33554432);
  }
}
