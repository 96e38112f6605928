/** Bytes, and the value of a run of seven-bit groups. */
module Bytes {
  type Byte = b: int | 0 <= b < 256

  type Data = seq<Byte>

  /** binary.Uvarint up to the first byte without the continuation bit. */
  function Uvarint(b: Data): nat {
    if b == [] then 0
    else if b[0] < 0x80 then b[0]
    else b[0] - 0x80 + 128 * Uvarint(b[1..])
  }

  function Concat(parts: seq<Data>): Data {
    if parts == [] then [] else parts[0] + Concat(parts[1..])
  }

  lemma {:induction false} ConcatSnoc(parts: seq<Data>, part: Data)
    ensures Concat(parts + [part]) == Concat(parts) + part
  {
    if parts == [] {
      assert [part][1..] == [] && Concat([part]) == part + [];
    } else {
      ConcatSnoc(parts[1..], part);
      assert (parts + [part])[1..] == parts[1..] + [part];
    }
  }
}
