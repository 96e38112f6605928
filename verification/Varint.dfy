/**
  Variable byte integers (section 1.5.5 of MQTT Version 5.0): the writers and readers of
  util.go and message.go, and the ones of encoding/binary they stand in for.
 */
module Varints {
  import opened Bytes

  /** What reading a field comes to: a value and the bytes it took, an error return, or a
      slice or index out of range. */
  datatype Parsed<+T> = Ok(value: T, n: nat) | Bad | Panics

  const MAX_REMAINING := 268435455

  /** The groups of seven bits, the lowest first, all but the last with the continuation bit. */
  function Varint(x: nat): (b: Data)
    ensures |b| > 0
  {
    if x < 128 then [x] else [x % 128 + 128] + Varint(x / 128)
  }

  lemma VarintSize(x: nat)
    requires x <= MAX_REMAINING
    ensures |Varint(x)| == if x <= 127 then 1 else if x <= 16383 then 2 else if x <= 2097151 then 3 else 4
  {
  }

  /** A byte buffer that is only written to at its end. */
  class ByteBuffer {
    var data: Data

    constructor ()
      ensures data == []
    {
      data := [];
    }

    method WriteByte(b: Byte)
      modifies this
      ensures data == old(data) + [b]
    {
      data := data + [b];
    }

    method Write(b: Data)
      modifies this
      ensures data == old(data) + b
    {
      data := data + b;
    }
  }

  /** lbEncode. */
  method LbEncode(x: nat) returns (b: Data)
    requires x <= MAX_REMAINING
    ensures b == Varint(x)
  {
    VarintSize(x);
    var rest := x;
    var encoded: int := rest % 128;
    var a := new Byte[4];
    var i := 0;
    rest := rest / 128;
    if rest > 0 {
      encoded := encoded + 128;
      a[i] := encoded;
      i := i + 1;
    }
    while rest > 0
      invariant rest >= 0 && i <= 4 && 0 <= encoded < 256
      invariant if rest > 0 then Varint(x) == a[..i] + Varint(rest)
                else i < 4 && encoded < 128 && Varint(x) == a[..i] + [encoded]
    {
      assert rest >= 128 ==> Varint(x) == (a[..i] + [rest % 128 + 128]) + Varint(rest / 128);
      encoded := rest % 128;
      rest := rest / 128;
      if rest > 0 {
        encoded := encoded + 128;
        a[i] := encoded;
        i := i + 1;
      }
    }
    a[i] := encoded;
    return a[..i + 1];
  }

  /** BigEndianPutUvarint, and binary.PutUvarint but for where the bytes go. */
  method PutUvarint(buf: ByteBuffer, x: nat) returns (n: nat)
    modifies buf
    ensures buf.data == old(buf.data) + Varint(x) && n == |Varint(x)|
  {
    var rest := x;
    n := 0;
    while rest >= 0x80
      invariant |buf.data| == |old(buf.data)| + n
      invariant old(buf.data) + Varint(x) == buf.data + Varint(rest)
    {
      assert Varint(rest) == [rest % 128 + 0x80] + Varint(rest / 128);
      buf.WriteByte(rest % 128 + 0x80);
      rest := rest / 128;
      n := n + 1;
    }
    buf.WriteByte(rest);
    n := n + 1;
  }

  // ---------- reading ----------

  /** lbDecode from its i-th byte on, with what it has so far. */
  function LbFrom(b: Data, value: nat, i: nat): (r: Parsed<nat>)
    requires i <= |b|
    ensures r.Ok? ==> i < r.n <= |b|
    decreases |b| - i
  {
    if i == |b| then Panics
    else
      var v := value + b[i] % 128 * Weight(i);
      if i >= 4 then Bad
      else if b[i] >= 128 then LbFrom(b, v, i + 1)
      else Ok(v, i + 1)
  }

  function Weight(i: nat): nat {
    if i == 0 then 1 else 128 * Weight(i - 1)
  }

  function LbParse(b: Data): (r: Parsed<nat>)
    ensures r.Ok? ==> r.n <= |b|
  {
    if b == [] then Ok(0, 0) else LbFrom(b, 0, 0)
  }

  /** lbDecode, with its multiplier. */
  method LbDecode(b: Data) returns (r: Parsed<nat>)
    ensures r == LbParse(b)
  {
    if |b| == 0 {
      return Ok(0, 0);
    }
    var value, mu, i := 0, 1, 0;
    var ec: Byte := b[i];
    i := 1;
    value := value + ec % 128 * mu;
    mu := mu * 128;
    assert Weight(1) == 128 && Weight(4) == 128 * 128 * 128 * 128;
    while ec >= 128
      invariant 1 <= i <= 4 && i <= |b| && mu == Weight(i) && value >= 0
      invariant mu > 128 * 128 * 128 <==> i >= 4
      invariant LbParse(b) == if ec >= 128 then LbFrom(b, value, i) else Ok(value, i)
      decreases |b| - i, ec
    {
      if i == |b| {
        return Panics;
      }
      ec := b[i];
      i := i + 1;
      value := value + ec % 128 * mu;
      if mu > 128 * 128 * 128 {
        return Bad;
      }
      mu := mu * 128;
      assert i <= 3 ==> mu <= 128 * 128 * 128;
    }
    return Ok(value, i);
  }

  lemma {:induction false} LbFromVarint(x: nat, b: Data, value: nat, i: nat)
    requires i < 4 && i <= |b| && Varint(x) <= b[i..] && i + |Varint(x)| <= 4
    ensures LbFrom(b, value, i) == Ok(value + x * Weight(i), i + |Varint(x)|)
    decreases x
  {
    assert b[i] == Varint(x)[0];
    if x >= 128 {
      var w := Weight(i);
      assert Varint(x)[1..] == Varint(x / 128) && b[i..][1..] == b[i + 1..];
      LbFromVarint(x / 128, b, value + x % 128 * w, i + 1);
      GroupSum(x, w);
    }
  }

  lemma GroupSum(x: nat, w: nat)
    ensures x % 128 * w + x / 128 * (128 * w) == x * w
  {
  }

  /** Reading back what was written, whatever follows. */
  lemma LbRoundTrip(x: nat, rest: Data)
    requires x <= MAX_REMAINING
    ensures LbParse(Varint(x) + rest) == Ok(x, |Varint(x)|)
  {
    VarintSize(x);
    LbFromVarint(x, Varint(x) + rest, 0, 0);
  }

  /** Nothing shorter is read as the same value: the encoding is the shortest. */
  lemma VarintShortest(x: nat, b: Data)
    requires x <= MAX_REMAINING && LbParse(b).Ok? && LbParse(b).value == x && b != []
    ensures LbParse(b).n >= |Varint(x)|
  {
    VarintSize(x);
    LbBelow(b, 0, 0);
    assert Weight(1) == 128 && Weight(2) == 16384 && Weight(3) == 2097152 && Weight(4) == 268435456;
  }

  /** So many bytes read as less than so many groups hold. */
  lemma {:induction false} LbBelow(b: Data, value: nat, i: nat)
    requires i <= |b| && value < Weight(i)
    ensures var r := LbFrom(b, value, i); r.Ok? ==> i < r.n <= 4 && r.value < Weight(r.n)
    decreases |b| - i
  {
    if i < |b| && i < 4 {
      GroupBelow(value, b[i] % 128, Weight(i));
      assert Weight(i + 1) == 128 * Weight(i);
      if b[i] >= 128 {
        LbBelow(b, value + b[i] % 128 * Weight(i), i + 1);
      }
    }
  }

  lemma GroupBelow(value: nat, d: nat, w: nat)
    requires value < w && d < 128
    ensures 0 <= value + d * w < 128 * w
  {
  }

  /** binary.Uvarint: no value when the bytes run out or hold more than 64 bits. */
  function GoUvarint(b: Data, i: nat): (r: Parsed<nat>)
    requires i <= |b|
    ensures r.Ok? ==> i < r.n <= |b|
    decreases |b| - i
  {
    if i == |b| || i == 10 then Bad
    else if b[i] >= 0x80 then GoUvarint(b, i + 1)
    else if i == 9 && b[i] > 1 then Bad
    else Ok(Uvarint(b[..i + 1]), i + 1)
  }

  lemma {:induction false} UvarintOfVarint(x: nat)
    ensures Uvarint(Varint(x)) == x
    decreases x
  {
    if x >= 128 {
      UvarintOfVarint(x / 128);
      assert Varint(x)[1..] == Varint(x / 128);
    }
  }

  lemma {:induction false} Continues(x: nat)
    ensures forall i :: 0 <= i < |Varint(x)| ==> (Varint(x)[i] >= 0x80 <==> i < |Varint(x)| - 1)
    decreases x
  {
    if x >= 128 {
      Continues(x / 128);
      assert Varint(x)[1..] == Varint(x / 128);
      forall i | 0 < i < |Varint(x)| ensures Varint(x)[i] >= 0x80 <==> i < |Varint(x)| - 1 {
        assert Varint(x)[i] == Varint(x / 128)[i - 1];
      }
    }
  }

  lemma {:induction false} GoUvarintPast(b: Data, i: nat, j: nat)
    requires i <= j < |b| && j < 9 && (forall k :: i <= k < j ==> b[k] >= 0x80) && b[j] < 0x80
    ensures GoUvarint(b, i) == Ok(Uvarint(b[..j + 1]), j + 1)
    decreases j - i
  {
    if i < j { GoUvarintPast(b, i + 1, j); }
  }

  lemma {:induction false} VarintWithin(x: nat, n: nat)
    requires n > 0 && x < Weight(n)
    ensures |Varint(x)| <= n
    decreases n
  {
    if x >= 128 {
      assert n > 1;
      VarintWithin(x / 128, n - 1);
    }
  }

  /** binary.Uvarint reads back the same bytes, as long as they are no more than nine. */
  lemma GoReads(x: nat, rest: Data)
    requires |Varint(x)| <= 9
    ensures GoUvarint(Varint(x) + rest, 0) == Ok(x, |Varint(x)|)
  {
    Continues(x);
    UvarintOfVarint(x);
    var b := Varint(x) + rest;
    assert b[..|Varint(x)|] == Varint(x);
    GoUvarintPast(b, 0, |Varint(x)| - 1);
  }

  /** Every remaining length is read back. */
  lemma GoRoundTrip(x: nat, rest: Data)
    requires x <= MAX_REMAINING
    ensures GoUvarint(Varint(x) + rest, 0) == Ok(x, |Varint(x)|)
  {
    VarintSize(x);
    GoReads(x, rest);
  }
}
