/**
  SubscribeMessage of subscribe.go: its lengths, its two writers and its reader, proved
  against SubscribeSpec.
 */
module SubscribeMessages {
  import opened Bytes
  import opened Varints
  import opened Fields
  import opened Headers
  import opened SubscribeSpec

  /** The parallel slices, entry by entry. */
  ghost function Zip(topics: seq<Data>, qos: seq<Byte>, noLocal: seq<Byte>, retainAsPub: seq<Byte>,
                     handling: seq<Byte>): seq<Entry>
    requires |topics| == |qos| == |noLocal| == |retainAsPub| == |handling|
  {
    seq(|topics|, i requires 0 <= i < |topics| => Entry(topics[i], qos[i], noLocal[i] > 0, retainAsPub[i] > 0,
      handling[i]))
  }

  lemma EntriesNextWire(entries: seq<Entry>, i: nat, w: Data)
    requires EntriesOk(entries) && i < |entries|
    ensures EntriesOk(entries[..i]) && EntriesOk(entries[..i + 1])
    ensures w + EntriesWire(entries[..i + 1]) ==
      w + EntriesWire(entries[..i]) + LP(entries[i].topic) + [Options(entries[i])]
    ensures |EntriesWire(entries[..i + 1])| == |EntriesWire(entries[..i])| + 2 + |entries[i].topic| + 1
  {
    assert entries[..i + 1][..i] == entries[..i] && entries[..i + 1][i] == entries[i];
    hide LP, Options;
    var a, b, c := EntriesWire(entries[..i]), LP(entries[i].topic), [Options(entries[i])];
    assert EntriesWire(entries[..i + 1]) == a + (b + c);
    assert w + (a + (b + c)) == w + a + b + c;
  }

  lemma {:induction false} PrefixSize(entries: seq<Entry>, i: nat)
    requires EntriesOk(entries) && i <= |entries|
    ensures EntriesOk(entries[..i]) && |EntriesWire(entries[..i])| <= |EntriesWire(entries)|
    decreases |entries| - i
  {
    if i == |entries| {
      assert entries[..i] == entries;
    } else {
      EntriesNextWire(entries, i, []);
      PrefixSize(entries, i + 1);
    }
  }

  class SubscribeMessage {
    var mtypeflags: Byte
    var remlen: nat
    var propertiesLen: nat
    var packetId: nat
    var subscriptionIdentifier: nat
    var userProperty: seq<Data>
    var topics: seq<Data>
    var qos: seq<Byte>
    var noLocal: seq<Byte>
    var retainAsPub: seq<Byte>
    var retainHandling: seq<Byte>

    /** NewSubscribeMessage. */
    constructor ()
      ensures Valid() && Value() == NEW
    {
      mtypeflags, remlen, propertiesLen, packetId := FIRST, 0, 0, 0;
      subscriptionIdentifier, userProperty := 0, [];
      topics, qos, noLocal, retainAsPub, retainHandling := [], [], [], [], [];
    }

    /** The slices run in parallel, the flags among them are zero or one. */
    ghost predicate Valid()
      reads this
    {
      && mtypeflags == FIRST
      && |topics| == |qos| == |noLocal| == |retainAsPub| == |retainHandling|
      && (forall i :: 0 <= i < |topics| ==> noLocal[i] <= 1 && retainAsPub[i] <= 1)
    }

    ghost function Value(): Subscribe
      requires Valid()
      reads this
    {
      Subscribe(packetId, subscriptionIdentifier, userProperty, Zip(topics, qos, noLocal, retainAsPub, retainHandling))
    }

    /** build: the property length and the remaining length, before anything is written. */
    method Build()
      requires Valid() && Fits(Value())
      modifies `remlen, `propertiesLen
      ensures remlen == |Body(Value())| && propertiesLen == |Properties(Value())|
    {
      ghost var m := Value();
      BodySize(m);
      FrontSize(m);
      hide Properties, EntriesWire, Body, Front, Varint;
      var total := 2;
      if 0 < subscriptionIdentifier <= MAX_REMAINING {
        total := total + 1;
        var b1 := LbEncode(subscriptionIdentifier);
        total := total + |b1|;
      }
      var n := PropsLen(userProperty);
      total := total + n;
      var size := total - 2;
      propertiesLen := size;
      var b := LbEncode(size);
      total := total + |b|;
      total := AddTopics(total);
      remlen := total;
    }

    method AddTopics(sofar: nat) returns (total: nat)
      requires Valid() && EntriesOk(Value().entries)
      ensures total == sofar + |EntriesWire(Value().entries)|
    {
      ghost var entries := Value().entries;
      hide EntriesWire, LP;
      NoneYet(entries);
      total := sofar;
      for i := 0 to |topics|
        invariant EntriesOk(entries[..i]) && total == sofar + |EntriesWire(entries[..i])|
      {
        EntriesNextWire(entries, i, []);
        total := total + 2 + |topics[i]| + 1;
      }
      assert entries[..|topics|] == entries;
    }

    /** Len: as many bytes as the writers write. */
    method Len() returns (n: nat)
      requires Valid() && Fits(Value())
      modifies `remlen, `propertiesLen
      ensures n == |Wire(Value())| && remlen == |Body(Value())| && propertiesLen == |Properties(Value())|
    {
      Build();
      n := MsgLen(remlen);
      assert n == |Header(FIRST, remlen)|;
      n := n + remlen;
    }

    /** Encode, at a moving place of the array. */
    method Encode(dst: array<Byte>) returns (n: nat, err: bool)
      requires Valid() && Fits(Value())
      modifies `remlen, `propertiesLen, dst
      ensures err <==> dst.Length < |Wire(Value())|
      ensures err ==> dst[..] == old(dst[..])
      ensures !err ==> n == |Wire(Value())| && Filled(dst[..], old(dst[..]), Wire(Value()))
    {
      ghost var m := Value();
      Build();
      var hl := MsgLen(remlen);
      assert hl == |Header(FIRST, remlen)|;
      hide Front, Properties, EntriesWire, Body, Header, Fits;
      if dst.Length < hl + remlen {
        return 0, true;
      }
      ghost var was, h := dst[..], Header(FIRST, remlen);
      var total: nat;
      total, err := EncodeHeader(dst, mtypeflags, remlen, was);
      WireParts(m, []);
      assert [] + Wire(m) == Wire(m) && [] + h == h;
      total := EncodeProperties(dst, total, was, h);
      total := EncodeTopics(dst, total, was, h + Front(m) + Properties(m));
      return total, false;
    }

    method EncodeProperties(dst: array<Byte>, at: nat, ghost was: Data, ghost h: Data) returns (total: nat)
      requires Valid() && Fits(Value()) && propertiesLen == |Properties(Value())|
      requires Filled(dst[..], was, h) && at == |h| && |h + Front(Value()) + Properties(Value())| <= dst.Length
      modifies dst
      ensures var w := h + Front(Value()) + Properties(Value()); Filled(dst[..], was, w) && total == |w|
    {
      ghost var m := Value();
      BodySize(m);
      FrontParts(m, h);
      hide Filled, Body, Varint, Props, U16, Front, Properties, EntriesWire;
      total := PutBytes(dst, at, U16(packetId), was, h);
      var tb := LbEncode(propertiesLen);
      total := PutBytes(dst, total, tb, was, h + U16(m.pid));
      ghost var w := h + U16(m.pid) + Varint(|Properties(m)|);
      if 0 < subscriptionIdentifier <= MAX_REMAINING {
        total := PutByte(dst, total, SUB_ID, was, w);
        tb := LbEncode(subscriptionIdentifier);
        total := PutBytes(dst, total, tb, was, w + [SUB_ID]);
        assert w + [SUB_ID] + tb == w + ([SUB_ID] + tb);
      } else {
        assert w + [] == w;
      }
      total := WriteProps(dst, total, userProperty, was, w + IdEnc(m));
    }

    method EncodeTopics(dst: array<Byte>, at: nat, ghost was: Data, ghost w: Data) returns (total: nat)
      requires Valid() && Fits(Value()) && Filled(dst[..], was, w) && at == |w|
      requires |w + EntriesWire(Value().entries)| <= dst.Length
      modifies dst
      ensures var w' := w + EntriesWire(Value().entries); Filled(dst[..], was, w') && total == |w'|
    {
      ghost var entries := Value().entries;
      hide Filled, Body, LP, EntriesWire;
      total := at;
      NoneYet(entries);
      assert w + [] == w;
      for i := 0 to |topics|
        invariant EntriesOk(entries[..i])
        invariant var done := w + EntriesWire(entries[..i]); Filled(dst[..], was, done) && total == |done|
      {
        EntriesNextWire(entries, i, w);
        PrefixSize(entries, i + 1);
        total := EncodeTopic(dst, total, i, was, w + EntriesWire(entries[..i]));
      }
      assert entries[..|topics|] == entries;
    }

    method EncodeTopic(dst: array<Byte>, at: nat, i: nat, ghost was: Data, ghost w: Data) returns (total: nat)
      requires Valid() && i < |topics| && EntryOk(Value().entries[i]) && Filled(dst[..], was, w) && at == |w|
      requires |w| + |LP(topics[i])| + 1 <= dst.Length
      modifies dst
      ensures var w' := w + LP(topics[i]) + [Options(Value().entries[i])]; Filled(dst[..], was, w') && total == |w'|
    {
      ghost var e := Value().entries[i];
      hide Filled, Options;
      var err;
      total, err := WriteLP(dst, at, topics[i], was, w);
      var subOp := SubOp(i);
      total := PutByte(dst, total, subOp, was, w + LP(e.topic));
    }

    /** The options byte, its parts shifted into place. */
    method SubOp(i: nat) returns (subOp: Byte)
      requires Valid() && i < |topics| && EntryOk(Value().entries[i])
      ensures subOp == Options(Value().entries[i])
    {
      ghost var e := Value().entries[i];
      assert qos[i] <= 2 && retainHandling[i] <= 2;
      var s: int := qos[i];
      s := s + noLocal[i] as int * 4;
      s := s + retainAsPub[i] as int * 8;
      s := s + retainHandling[i] as int * 16;
      return s;
    }

    /** EncodeToBuf: the same bytes behind what the buffer holds. */
    method EncodeToBuf(buf: ByteBuffer)
      requires Valid() && Fits(Value())
      modifies `remlen, `propertiesLen, buf
      ensures buf.data == old(buf.data) + Wire(Value())
    {
      ghost var m := Value();
      Build();
      hide Front, Properties, EntriesWire, Body, Header, Wire, Fits;
      WireParts(m, buf.data);
      var err := BufHeader(buf, mtypeflags, remlen);
      BufProperties(buf);
      BufTopics(buf);
    }

    method BufProperties(buf: ByteBuffer)
      requires Valid() && Fits(Value()) && propertiesLen == |Properties(Value())|
      modifies buf
      ensures buf.data == old(buf.data) + Front(Value()) + Properties(Value())
    {
      ghost var m, h := Value(), buf.data;
      BodySize(m);
      FrontParts(m, h);
      hide Body, Varint, Props, U16, Front, Properties, EntriesWire;
      buf.Write(U16(packetId));
      var tb := LbEncode(propertiesLen);
      buf.Write(tb);
      ghost var w := buf.data;
      if 0 < subscriptionIdentifier <= MAX_REMAINING {
        buf.WriteByte(SUB_ID);
        tb := LbEncode(subscriptionIdentifier);
        buf.Write(tb);
        assert w + [SUB_ID] + tb == w + ([SUB_ID] + tb);
      } else {
        assert w + [] == w;
      }
      var err := BufProps(buf, userProperty);
    }

    method BufTopics(buf: ByteBuffer)
      requires Valid() && Fits(Value())
      modifies buf
      ensures buf.data == old(buf.data) + EntriesWire(Value().entries)
    {
      ghost var entries, w := Value().entries, buf.data;
      hide Body, LP, EntriesWire, Options;
      NoneYet(entries);
      assert w + [] == w;
      for i := 0 to |topics|
        invariant EntriesOk(entries[..i]) && buf.data == w + EntriesWire(entries[..i])
      {
        EntriesNextWire(entries, i, w);
        var err := BufLP(buf, topics[i]);
        var subOp := SubOp(i);
        buf.WriteByte(subOp);
      }
      assert entries[..|topics|] == entries;
    }

    // ---------- reading ----------

    /** Decode: fails as DecodeInto does, or takes on the message it yields. */
    method Decode(src: Data) returns (r: Parsed<()>)
      requires Valid()
      modifies this
      ensures match DecodeInto(old(Value()), src)
              case Bad => r == Bad
              case Panics => r == Panics
              case Ok(m, n) => r == Ok((), n) && Valid() && Value() == m
    {
      hide DecodeFront, DecodeProperties, DecodeEntries, ParseHeader;
      var head := ParseHeader(src, SUBSCRIBE, FLAGS);
      if !head.Ok? {
        return if head.Bad? then Bad else Panics;
      }
      remlen := head.value.remlen;
      var total := head.n;
      var front := ReadFront(src[total..]);
      if !front.Ok? {
        return if front.Bad? then Bad else Panics;
      }
      total := total + front.n;
      assert src[head.n..][front.n..] == src[total..];
      var done := ReadProperties(src[total..]);
      if !done.Ok? {
        return if done.Bad? then Bad else Panics;
      }
      total := total + done.n;
      assert src[head.n..][front.n + done.n..] == src[total..];
      r := ReadTopics(src[total..], remlen - (total - head.n), total);
    }

    method ReadFront(body: Data) returns (r: Parsed<()>)
      requires Valid()
      modifies `packetId, `propertiesLen
      ensures match DecodeFront(old(Value()), body)
              case Bad => r == Bad
              case Panics => r == Panics
              case Ok(m, n) => r == Ok((), n) && Value() == m
    {
      if |body| < 2 {
        return Panics;
      }
      packetId := ParseU16(body).value;
      var len := LbDecode(body[2..]);
      if !len.Ok? {
        return if len.Bad? then Bad else Panics;
      }
      propertiesLen := len.value;
      if propertiesLen > |body| - 2 - len.n {
        return Bad;
      }
      return Ok((), 2 + len.n);
    }

    method ReadProperties(b: Data) returns (r: Parsed<()>)
      requires Valid()
      modifies `subscriptionIdentifier, `userProperty
      ensures match DecodeProperties(old(Value()), b)
              case Bad => r == Bad
              case Panics => r == Panics
              case Ok(m, n) => r == Ok((), n) && Value() == m
    {
      hide ParseProps;
      var total := 0;
      if total < |b| && b[total] == SUB_ID {
        total := total + 1;
        var id := LbDecode(b[total..]);
        if !id.Ok? {
          return if id.Bad? then Bad else Panics;
        }
        total := total + id.n;
        subscriptionIdentifier := id.value;
        if subscriptionIdentifier == 0 {
          return Bad;
        }
        if total >= |b| {
          return Panics;
        }
        if b[total] == SUB_ID {
          return Bad;
        }
      }
      assert ParseId(b, old(subscriptionIdentifier)) == Ok(subscriptionIdentifier, total);
      var props := ReadProps(b[total..]);
      if !props.Ok? {
        return if props.Bad? then Bad else Panics;
      }
      userProperty := props.value;
      return Ok((), total + props.n);
    }

    /** The loop over the filters, each appended to the five slices. */
    method ReadTopics(b: Data, size: int, sofar: nat) returns (r: Parsed<()>)
      requires Valid()
      modifies `topics, `qos, `noLocal, `retainAsPub, `retainHandling
      ensures match DecodeEntries(old(Value()), size, sofar, b)
              case Bad => r == Bad
              case Panics => r == Panics
              case Ok(m, n) => r == Ok((), n) && Valid() && Value() == m
    {
      hide ParseEntry;
      ghost var m := Value();
      var left, total := size, 0;
      ghost var got: seq<Entry> := [];
      assert b[0..] == b && m.entries + [] == m.entries;
      NothingGot(ParseEntries(b, size));
      while left > 0
        invariant Valid() && total <= |b| && Value() == m.(entries := m.entries + got)
        invariant ParseEntries(b, size) == Got(got, total, ParseEntries(b[total..], left))
        decreases |b| - total
      {
        OneGot(got, total, b[total..], left);
        label before:
        var n := ReadTopic(b[total..]);
        if !n.Ok? {
          return if n.Bad? then Bad else Panics;
        }
        ghost var e := ParseEntry(b[total..]).value;
        assert m.entries + (got + [e]) == m.entries + got + [e];
        got := got + [e];
        assert b[total..][n.n..] == b[total + n.n..];
        total := total + n.n;
        left := left - n.n;
      }
      assert got + [] == got;
      if |topics| == 0 {
        return Bad;
      }
      return Ok((), sofar + total);
    }

    method ReadTopic(b: Data) returns (r: Parsed<()>)
      requires Valid()
      modifies `topics, `qos, `noLocal, `retainAsPub, `retainHandling
      ensures match ParseEntry(b)
              case Bad => r == Bad
              case Panics => r == Panics
              case Ok(e, n) =>
                r == Ok((), n) && Valid() && Value() == old(Value()).(entries := old(Value()).entries + [e])
    {
      var t := ParseLP(b);
      if !t.Ok? {
        return if t.Bad? then Bad else Panics;
      }
      if |b| <= t.n {
        return Panics;
      }
      var o: int := b[t.n];
      ghost var was := Value().entries;
      if o % 4 == 3 {
        return Bad;
      }
      if o / 16 % 4 == 3 {
        return Bad;
      }
      if o / 64 != 0 {
        return Bad;
      }
      topics := topics + [t.value];
      qos := qos + [o % 4];
      noLocal := noLocal + [o / 4 % 2];
      retainAsPub := retainAsPub + [o / 8 % 2];
      retainHandling := retainHandling + [o / 16 % 4];
      assert Value().entries == was + [ParseEntry(b).value];
      return Ok((), t.n + 1);
    }
  }

  /** The filters read so far in front of what the rest comes to. */
  function Got(got: seq<Entry>, n: nat, r: Parsed<seq<Entry>>): Parsed<seq<Entry>> {
    match r
    case Ok(more, k) => Ok(got + more, n + k)
    case other => other
  }

  lemma NothingGot(r: Parsed<seq<Entry>>)
    ensures Got([], 0, r) == r
  {
    if r.Ok? { assert [] + r.value == r.value; }
  }

  lemma OneGot(got: seq<Entry>, total: nat, b: Data, left: int)
    requires left > 0
    ensures var r := ParseEntry(b);
      if r.Ok? then Got(got, total, ParseEntries(b, left)) ==
        Got(got + [r.value], total + r.n, ParseEntries(b[r.n..], left - r.n))
      else Got(got, total, ParseEntries(b, left)) == if r.Bad? then Bad else Panics
  {
    hide ParseEntry;
    var r := ParseEntry(b);
    if r.Ok? {
      var more := ParseEntries(b[r.n..], left - r.n);
      if more.Ok? { assert got + [r.value] + more.value == got + ([r.value] + more.value); }
    }
  }

  lemma NoneYet(entries: seq<Entry>)
    ensures EntriesOk(entries[..0]) && EntriesWire(entries[..0]) == []
  {
  }

  lemma FrontSize(m: Subscribe)
    ensures |Front(m)| == 2 + |Varint(|Properties(m)|)|
    ensures |Properties(m)| == (if 0 < m.subId <= MAX_REMAINING then 1 + |Varint(m.subId)| else 0) + |Props(m.props)|
  {
  }

  lemma FrontParts(m: Subscribe, h: Data)
    ensures h + Front(m) + Properties(m) ==
      h + U16(m.pid) + Varint(|Properties(m)|) + IdEnc(m) + Props(m.props)
  {
  }

  lemma WireParts(m: Subscribe, d: Data)
    requires EntriesOk(m.entries)
    ensures d + Wire(m) == d + Header(FIRST, |Body(m)|) + Front(m) + Properties(m) + EntriesWire(m.entries)
  {
  }
}
