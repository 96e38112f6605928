/**
  The fields packets are made of: big-endian numbers, length-prefixed bytes and user
  properties, each written to an array at a moving place and to a buffer, and read back.
 */
module Fields {
  import opened Bytes
  import opened Varints

  const MAX_LP := 65535

  function U16(v: nat): Data {
    [v / 256 % 256, v % 256]
  }

  function U32(v: nat): Data {
    [v / 16777216 % 256, v / 65536 % 256, v / 256 % 256, v % 256]
  }

  /** Two bytes of length and the bytes. */
  function LP(b: Data): Data {
    U16(|b|) + b
  }

  // ---------- writing to an array ----------

  /** The array holds what was written from its start and, behind it, what it held. */
  predicate Filled(now: Data, was: Data, written: Data) {
    && |now| == |was| && |written| <= |was|
    && now[..|written|] == written && now[|written|..] == was[|written|..]
  }

  method PutByte(dst: array<Byte>, total: nat, b: Byte, ghost was: Data, ghost written: Data) returns (total': nat)
    requires Filled(dst[..], was, written) && total == |written| < dst.Length
    modifies dst
    ensures Filled(dst[..], was, written + [b]) && total' == |written + [b]|
  {
    dst[total] := b;
    assert dst[..total] == written && dst[total + 1..] == was[total..][1..];
    return total + 1;
  }

  /** copy(dst[total:], b) where it fits. */
  method PutBytes(dst: array<Byte>, total: nat, b: Data, ghost was: Data, ghost written: Data) returns (total': nat)
    requires Filled(dst[..], was, written) && total == |written| && total + |b| <= dst.Length
    modifies dst
    ensures Filled(dst[..], was, written + b) && total' == |written + b|
  {
    total' := total;
    for i := 0 to |b|
      invariant total' == total + i && Filled(dst[..], was, written + b[..i])
    {
      assert written + b[..i + 1] == written + b[..i] + [b[i]];
      total' := PutByte(dst, total', b[i], was, written + b[..i]);
    }
    assert b[..|b|] == b;
  }

  /** writeLPBytes at a place: fails on what is too long and on what does not fit. */
  method WriteLP(dst: array<Byte>, total: nat, b: Data, ghost was: Data, ghost written: Data)
    returns (total': nat, err: bool)
    requires Filled(dst[..], was, written) && total == |written|
    modifies dst
    ensures err <==> |b| > MAX_LP || dst.Length < total + 2 + |b|
    ensures err ==> total' == total && Filled(dst[..], was, written)
    ensures !err ==> Filled(dst[..], was, written + LP(b)) && total' == |written + LP(b)|
  {
    var n := |b|;
    if n > MAX_LP || dst.Length - total < 2 + n {
      return total, true;
    }
    total' := PutBytes(dst, total, U16(n), was, written);
    total' := PutBytes(dst, total', b, was, written + U16(n));
    assert written + U16(n) + b == written + LP(b);
    return total', false;
  }

  /** writeToBufLPBytes. */
  method BufLP(buf: ByteBuffer, b: Data) returns (err: bool)
    modifies buf
    ensures err <==> |b| > MAX_LP
    ensures buf.data == if err then old(buf.data) else old(buf.data) + LP(b)
  {
    var n := |b|;
    if n > MAX_LP {
      return true;
    }
    buf.WriteByte(n / 256 % 256);
    buf.WriteByte(n % 256);
    buf.Write(b);
    assert old(buf.data) + [n / 256 % 256] + [n % 256] + b == old(buf.data) + LP(b);
    return false;
  }

  // ---------- reading ----------

  function ParseByte(b: Data): (r: Parsed<Byte>)
    ensures r.Ok? ==> r.n <= |b|
  {
    if |b| < 1 then Panics else Ok(b[0], 1)
  }

  function ParseU16(b: Data): (r: Parsed<nat>)
    ensures r.Ok? ==> r.n <= |b|
  {
    if |b| < 2 then Panics else Ok(b[0] as int * 256 + b[1], 2)
  }

  function ParseU32(b: Data): (r: Parsed<nat>)
    ensures r.Ok? ==> r.n <= |b|
  {
    if |b| < 4 then Panics else Ok(((b[0] as int * 256 + b[1]) * 256 + b[2]) * 256 + b[3], 4)
  }

  /** readLPBytes: its check leaves out the two bytes of the length. */
  function ParseLP(b: Data): (r: Parsed<Data>)
    ensures r.Ok? ==> 2 <= r.n <= |b| && |r.value| <= MAX_LP
  {
    if |b| < 2 then Bad
    else
      var n: nat := b[0] as int * 256 + b[1];
      if |b| < n then Bad else if |b| < 2 + n then Panics else Ok(b[2..2 + n], 2 + n)
  }

  /** A field cut short by one or two bytes is an index out of range, by more an error. */
  lemma CutShort(v: Data, k: nat)
    requires |v| <= MAX_LP && 0 < k <= |LP(v)|
    ensures ParseLP(LP(v)[..|LP(v)| - k]) == if k <= 2 && k <= |v| then Panics else Bad
  {
    var b := LP(v)[..|LP(v)| - k];
    if |b| >= 2 {
      assert b[0] == LP(v)[0] && b[1] == LP(v)[1];
    }
  }

  lemma U16RoundTrip(v: nat, rest: Data)
    requires v < 65536
    ensures ParseU16(U16(v) + rest) == Ok(v, 2)
  {
  }

  lemma U32RoundTrip(v: nat, rest: Data)
    requires v < 0x1_0000_0000
    ensures ParseU32(U32(v) + rest) == Ok(v, 4)
  {
    var a, b, c := v / 256, v / 65536, v / 16777216;
    assert b == a / 256 && c == b / 256 && c < 256;
    assert v == a * 256 + v % 256 && a == b * 256 + a % 256 && b == c * 256 + b % 256;
  }

  lemma LPRoundTrip(b: Data, rest: Data)
    requires |b| <= MAX_LP
    ensures ParseLP(LP(b) + rest) == Ok(b, |LP(b)|)
  {
  }

  // ---------- user properties ----------

  const USER_PROPERTY: Byte := 0x26

  /** A list with an odd end is written as if an empty value followed. */
  function Padded(props: seq<Data>): (r: seq<Data>)
    ensures |r| % 2 == 0 && props <= r
  {
    if |props| % 2 == 0 then props else props + [[]]
  }

  /** The pairs as they are on the wire. */
  function Props(props: seq<Data>): Data {
    if props == [] then []
    else if |props| == 1 then [USER_PROPERTY] + LP(props[0]) + LP([])
    else [USER_PROPERTY] + LP(props[0]) + LP(props[1]) + Props(props[2..])
  }

  predicate PropsFit(props: seq<Data>) {
    forall i :: 0 <= i < |props| ==> |props[i]| <= MAX_LP
  }

  /** An odd list is written as if an empty value followed. */
  lemma OddExample()
    ensures Props([[0x6B], [0x76], [0x78]]) ==
      [0x26, 0x00, 0x01, 0x6B, 0x00, 0x01, 0x76] + [0x26, 0x00, 0x01, 0x78, 0x00, 0x00]
  {
    assert [[0x6B], [0x76], [0x78]][2..] == [[0x78]];
    assert Props([[0x78]]) == [0x26, 0x00, 0x01, 0x78, 0x00, 0x00];
  }

  lemma {:induction false} PaddedProps(props: seq<Data>)
    ensures Props(Padded(props)) == Props(props)
    decreases |props|
  {
    if |props| == 1 {
      assert Padded(props)[2..] == [];
      assert Props(Padded(props)) == [USER_PROPERTY] + LP(props[0]) + LP([]) + [];
    } else if |props| > 1 {
      PaddedProps(props[2..]);
      assert Padded(props)[2..] == Padded(props[2..]);
    }
  }

  /** buildUserPropertyLen. */
  method PropsLen(props: seq<Data>) returns (total: nat)
    ensures total == |Props(props)|
  {
    total := 0;
    var i := 0;
    while i < |props|
      invariant i <= |props| + 1
      invariant i <= |props| ==> total + |Props(props[i..])| == |Props(props)|
      invariant i == |props| + 1 ==> total == |Props(props)|
    {
      ghost var rest := props[i..];
      assert |rest| > 1 ==> rest[2..] == props[i + 2..];
      total := total + 1;
      total := total + 2;
      if |props[i]| != 0 {
        total := total + |props[i]|;
      }
      total := total + 2;
      if i < |props| - 1 && |props[i + 1]| != 0 {
        total := total + |props[i + 1]|;
      }
      i := i + 2;
    }
  }

  /** writeUserProperty at a place. */
  method WriteProps(dst: array<Byte>, total: nat, props: seq<Data>, ghost was: Data, ghost written: Data)
    returns (total': nat)
    requires Filled(dst[..], was, written) && total == |written|
    requires PropsFit(props) && total + |Props(props)| <= dst.Length
    modifies dst
    ensures Filled(dst[..], was, written + Props(props)) && total' == |written + Props(props)|
  {
    total' := total;
    var i := 0;
    ghost var w := written;
    assert props[0..] == props;
    while i < |props|
      invariant i <= |props| + 1 && total' == |w| && Filled(dst[..], was, w)
      invariant w + (if i <= |props| then Props(props[i..]) else []) == written + Props(props)
    {
      PropsStep(props, i, w);
      total' := PutByte(dst, total', USER_PROPERTY, was, w);
      w := w + [USER_PROPERTY];
      total' := WriteHalf(dst, total', props[i], was, w);
      w := w + LP(props[i]);
      var second := if i == |props| - 1 then [] else props[i + 1];
      total' := WriteHalf(dst, total', second, was, w);
      w := w + LP(second);
      i := i + 2;
    }
  }

  /** One half of a pair: nothing but its length when it is empty. */
  method WriteHalf(dst: array<Byte>, total: nat, b: Data, ghost was: Data, ghost written: Data) returns (total': nat)
    requires Filled(dst[..], was, written) && total == |written| && |b| <= MAX_LP && total + |LP(b)| <= dst.Length
    modifies dst
    ensures Filled(dst[..], was, written + LP(b)) && total' == |written + LP(b)|
  {
    if |b| == 0 {
      total' := PutByte(dst, total, 0, was, written);
      total' := PutByte(dst, total', 0, was, written + [0]);
      assert written + [0] + [0] == written + LP(b);
    } else {
      var err;
      total', err := WriteLP(dst, total, b, was, written);
    }
  }

  lemma PropsStep(props: seq<Data>, i: nat, w: Data)
    requires i < |props|
    ensures var second := if i == |props| - 1 then [] else props[i + 1];
      w + Props(props[i..]) ==
      w + [USER_PROPERTY] + LP(props[i]) + LP(second) + if i + 2 <= |props| then Props(props[i + 2..]) else []
  {
  }

  /** writeUserPropertyByBuf. */
  method BufProps(buf: ByteBuffer, props: seq<Data>) returns (err: bool)
    requires PropsFit(props)
    modifies buf
    ensures !err && buf.data == old(buf.data) + Props(props)
  {
    var i := 0;
    assert props[0..] == props;
    while i < |props|
      invariant i <= |props| + 1
      invariant buf.data + (if i <= |props| then Props(props[i..]) else []) == old(buf.data) + Props(props)
    {
      PropsStep(props, i, buf.data);
      buf.WriteByte(USER_PROPERTY);
      BufHalf(buf, props[i]);
      BufHalf(buf, if i == |props| - 1 then [] else props[i + 1]);
      i := i + 2;
    }
    return false;
  }

  method BufHalf(buf: ByteBuffer, b: Data)
    requires |b| <= MAX_LP
    modifies buf
    ensures buf.data == old(buf.data) + LP(b)
  {
    if |b| == 0 {
      buf.WriteByte(0);
      buf.WriteByte(0);
      assert old(buf.data) + [0] + [0] == old(buf.data) + LP(b);
    } else {
      var err := BufLP(buf, b);
    }
  }

  /** One pair behind its identifier. */
  function ParsePair(b: Data): (r: Parsed<(Data, Data)>)
    ensures r.Ok? ==> r.n <= |b|
  {
    match ParseLP(b)
    case Bad => Bad
    case Panics => Panics
    case Ok(k, n) =>
      match ParseLP(b[n..])
      case Bad => Bad
      case Panics => Panics
      case Ok(v, m) => Ok((k, v), n + m)
  }

  /** decodeUserProperty: pairs as long as the next byte is their identifier. */
  function ParseProps(b: Data): (r: Parsed<seq<Data>>)
    ensures r.Ok? ==> r.n <= |b|
    decreases |b|
  {
    if b == [] || b[0] != USER_PROPERTY then Ok([], 0)
    else
      match ParsePair(b[1..])
      case Bad => Bad
      case Panics => Panics
      case Ok(pair, n) =>
        match ParseProps(b[1 + n..])
        case Bad => Bad
        case Panics => Panics
        case Ok(more, m) => Ok([pair.0, pair.1] + more, 1 + n + m)
  }

  /** The list decodeUserProperty returns along with an error. */
  function PropsSoFar(b: Data): seq<Data>
    decreases |b|
  {
    if b == [] || b[0] != USER_PROPERTY || !ParseLP(b[1..]).Ok? then []
    else
      var key := ParseLP(b[1..]);
      var val := ParseLP(b[1 + key.n..]);
      if !val.Ok? then [key.value] else [key.value, val.value] + PropsSoFar(b[1 + key.n + val.n..])
  }

  method ReadPair(src: Data, total: nat) returns (r: Parsed<(Data, Data)>)
    requires total <= |src|
    ensures r == ParsePair(src[total..])
  {
    var key := ParseLP(src[total..]);
    if !key.Ok? {
      return if key.Bad? then Bad else Panics;
    }
    assert src[total..][key.n..] == src[total + key.n..];
    var val := ParseLP(src[total + key.n..]);
    if !val.Ok? {
      return if val.Bad? then Bad else Panics;
    }
    return Ok((key.value, val.value), key.n + val.n);
  }

  method ReadProps(src: Data) returns (r: Parsed<seq<Data>>)
    ensures r == ParseProps(src)
  {
    hide ParsePair, ParseProps, After;
    var total := 0;
    var props: seq<Data> := [];
    assert src[0..] == src;
    AfterNothing(ParseProps(src));
    while total < |src| && src[total] == USER_PROPERTY
      invariant total <= |src|
      invariant ParseProps(src) == After(props, total, ParseProps(src[total..]))
      decreases |src| - total
    {
      ghost var at := src[total..];
      assert at[1..] == src[total + 1..];
      ParseStep(at);
      var pair := ReadPair(src, total + 1);
      if !pair.Ok? {
        AfterFailure(props, total, ParseProps(at));
        return if pair.Bad? then Bad else Panics;
      }
      assert at[1 + pair.n..] == src[total + 1 + pair.n..];
      AfterMore(props, total, [pair.value.0, pair.value.1], 1 + pair.n, ParseProps(at[1 + pair.n..]));
      total := total + 1 + pair.n;
      props := props + [pair.value.0, pair.value.1];
    }
    ParseNone(src[total..], props, total);
    return Ok(props, total);
  }

  lemma AfterNothing(r: Parsed<seq<Data>>)
    ensures After([], 0, r) == r
  {
    if r.Ok? { assert [] + r.value == r.value; }
  }

  lemma ParseStep(b: Data)
    requires b != [] && b[0] == USER_PROPERTY
    ensures ParseProps(b) ==
      match ParsePair(b[1..])
      case Bad => Bad
      case Panics => Panics
      case Ok(pair, n) => After([pair.0, pair.1], 1 + n, ParseProps(b[1 + n..]))
  {
  }

  lemma AfterFailure(props: seq<Data>, n: nat, r: Parsed<seq<Data>>)
    ensures !r.Ok? ==> After(props, n, r) == r
  {
  }

  lemma ParseNone(b: Data, props: seq<Data>, n: nat)
    requires b == [] || b[0] != USER_PROPERTY
    ensures After(props, n, ParseProps(b)) == Ok(props, n)
  {
    assert props + [] == props;
  }

  lemma AfterMore(a: seq<Data>, n: nat, b: seq<Data>, m: nat, r: Parsed<seq<Data>>)
    ensures After(a + b, n + m, r) == After(a, n, After(b, m, r))
  {
    if r.Ok? { assert a + b + r.value == a + (b + r.value); }
  }

  function After(props: seq<Data>, n: nat, r: Parsed<seq<Data>>): Parsed<seq<Data>> {
    match r
    case Ok(more, m) => Ok(props + more, n + m)
    case other => other
  }

  lemma PairRoundTrip(k: Data, v: Data, tail: Data)
    requires |k| <= MAX_LP && |v| <= MAX_LP
    ensures ParsePair(LP(k) + (LP(v) + tail)) == Ok((k, v), |LP(k)| + |LP(v)|)
  {
    var b := LP(k) + (LP(v) + tail);
    LPRoundTrip(k, LP(v) + tail);
    assert b[|LP(k)|..] == LP(v) + tail;
    LPRoundTrip(v, tail);
  }

  function Second(props: seq<Data>): Data {
    if |props| < 2 then [] else props[1]
  }

  function Later(props: seq<Data>): seq<Data> {
    if |props| < 2 then [] else props[2..]
  }

  /** The first pair of a list, the rest of it, and what is read behind it. */
  lemma FirstPair(props: seq<Data>, rest: Data)
    requires PropsFit(props) && props != []
    ensures |Props(props)| == 1 + (|LP(props[0])| + |LP(Second(props))|) + |Props(Later(props))|
    ensures ParseProps(Props(props) + rest) ==
      After([props[0], Second(props)], 1 + (|LP(props[0])| + |LP(Second(props))|),
        ParseProps(Props(Later(props)) + rest))
  {
    PropsFirst(props);
    hide LP, ParsePair, ParseProps, Props, After;
    PairBefore(props[0], Second(props), Props(Later(props)), rest);
  }

  lemma PairBefore(k: Data, v: Data, later: Data, rest: Data)
    requires |k| <= MAX_LP && |v| <= MAX_LP
    ensures ParseProps([USER_PROPERTY] + (LP(k) + (LP(v) + later)) + rest) ==
      After([k, v], 1 + (|LP(k)| + |LP(v)|), ParseProps(later + rest))
  {
    hide LP, ParsePair, ParseProps, After;
    var tail := later + rest;
    var b := [USER_PROPERTY] + (LP(k) + (LP(v) + later)) + rest;
    assert b[1..] == LP(k) + (LP(v) + tail);
    PairRoundTrip(k, v, tail);
    assert b[1 + (|LP(k)| + |LP(v)|)..] == tail;
    ParseStep(b);
  }

  lemma PaddedFirst(props: seq<Data>)
    requires props != []
    ensures Padded(props) == [props[0], Second(props)] + Padded(Later(props))
  {
  }

  lemma PropsFirst(props: seq<Data>)
    requires props != []
    ensures Props(props) == [USER_PROPERTY] + (LP(props[0]) + (LP(Second(props)) + Props(Later(props))))
  {
  }

  /** Padded properties are read back, and on to the first byte that is not their
      identifier. */
  lemma {:induction false} PropsRoundTrip(props: seq<Data>, rest: Data)
    requires PropsFit(props) && (rest == [] || rest[0] != USER_PROPERTY)
    ensures ParseProps(Props(props) + rest) == Ok(Padded(props), |Props(props)|)
    decreases |props|
  {
    if props == [] {
      assert Props(props) + rest == rest;
    } else {
      hide ParseProps, LP, Padded, Props;
      FirstPair(props, rest);
      PaddedFirst(props);
      PropsRoundTrip(Later(props), rest);
    }
  }

  /** When the identifier follows, the reader goes on into what follows. */
  lemma {:induction false} PropsRunOn(props: seq<Data>, rest: Data)
    requires PropsFit(props) && rest != [] && rest[0] == USER_PROPERTY
    ensures var r := ParseProps(Props(props) + rest);
      r.Ok? ==> r.n > |Props(props)| && |r.value| > |Padded(props)|
    decreases |props|
  {
    if props == [] {
      assert Props(props) + rest == rest;
    } else {
      hide ParseProps, LP, Padded, Props;
      FirstPair(props, rest);
      PaddedFirst(props);
      PropsRunOn(Later(props), rest);
    }
  }
}
