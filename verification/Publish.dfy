/**
  PublishMessage of publish.go: its lengths, its two writers and its reader, proved against
  PublishSpec.
 */
module PublishMessages {
  import opened Bytes
  import opened Varints
  import opened Fields
  import opened Headers
  import opened PublishSpec

  /** The first k properties, in the order they are written. */
  ghost function Written(m: Publish, k: nat): Data
    requires k <= 8
  {
    if k == 0 then [] else Written(m, k - 1) + Enc(m, k - 1)
  }

  /** The k-th property behind the ones before it and what w holds. */
  lemma Grows(m: Publish, k: nat, w: Data)
    requires k < 8
    ensures w + Written(m, k) + Enc(m, k) == w + Written(m, k + 1)
    ensures Enc(m, k) == [] ==> w + Written(m, k) == w + Written(m, k + 1)
  {
    hide Enc;
    assert Written(m, k + 1) == Written(m, k) + Enc(m, k);
  }

  lemma {:induction false} WrittenAll(m: Publish, k: nat)
    requires k <= 8
    ensures Written(m, k) + Encs(m, k) == Encs(m, 0)
  {
    hide Enc;
    if k > 0 {
      WrittenAll(m, k - 1);
      EncsStep(m, k - 1);
      Shifted(Written(m, k - 1), Enc(m, k - 1), Encs(m, k));
    } else {
      assert [] + Encs(m, 0) == Encs(m, 0);
    }
  }

  lemma EncsStep(m: Publish, k: nat)
    requires k < 8
    ensures Encs(m, k) == Enc(m, k) + Encs(m, k + 1) && Written(m, k + 1) == Written(m, k) + Enc(m, k)
  {
  }

  lemma Shifted(a: Data, b: Data, c: Data)
    ensures a + b + c == a + (b + c)
  {
  }

  /** All of them, within the whole packet. */
  lemma WrittenFits(m: Publish, k: nat)
    requires k <= 8
    ensures |Written(m, k)| <= |Encs(m, 0)| && Written(m, 8) == Encs(m, 0)
  {
    WrittenAll(m, k);
    WrittenAll(m, 8);
    assert Written(m, 8) + [] == Written(m, 8);
  }

  lemma EncSizes(m: Publish)
    ensures |Enc(m, 0)| == (if m.format != 0 then 2 else 0)
    ensures |Enc(m, 1)| == (if m.expiry > 0 then 5 else 0)
    ensures |Enc(m, 2)| == (if m.alias > 0 then 3 else 0)
    ensures |Enc(m, 3)| == (if |m.response| > 0 then 3 + |m.response| else 0)
    ensures |Enc(m, 4)| == (if |m.correlation| > 0 then 3 + |m.correlation| else 0)
    ensures |Enc(m, 5)| == |Props(m.props)|
    ensures |Enc(m, 6)| == (if 0 < m.subId < SUB_LIMIT then 1 + |Varint(m.subId)| else 0)
    ensures |Enc(m, 7)| == (if |m.content| > 0 then 3 + |m.content| else 0)
  {
  }

  lemma EncsSize(m: Publish)
    ensures |Encs(m, 0)| == |Enc(m, 0)| + |Enc(m, 1)| + |Enc(m, 2)| + |Enc(m, 3)| + |Enc(m, 4)| + |Enc(m, 5)|
      + |Enc(m, 6)| + |Enc(m, 7)|
  {
  }

  lemma BodySize(m: Publish)
    ensures |Body(m)| ==
      2 + |m.topic| + (if m.qos != 0 then 2 else 0) + |Varint(|Encs(m, 0)|)| + |Encs(m, 0)| + |m.payload|
  {
  }

  /** An identifier and the bytes of its value. */
  method PutProp(dst: array<Byte>, total: nat, id: Byte, value: Data, ghost was: Data, ghost w: Data)
    returns (total': nat)
    requires Filled(dst[..], was, w) && total == |w| && total + 1 + |value| <= dst.Length
    modifies dst
    ensures Filled(dst[..], was, w + ([id] + value)) && total' == |w + ([id] + value)|
  {
    total' := PutByte(dst, total, id, was, w);
    total' := PutBytes(dst, total', value, was, w + [id]);
    assert w + [id] + value == w + ([id] + value);
  }

  method PutLPProp(dst: array<Byte>, total: nat, id: Byte, value: Data, ghost was: Data, ghost w: Data)
    returns (total': nat)
    requires Filled(dst[..], was, w) && total == |w|
    requires |value| <= MAX_LP && total + 1 + |LP(value)| <= dst.Length
    modifies dst
    ensures Filled(dst[..], was, w + ([id] + LP(value))) && total' == |w + ([id] + LP(value))|
  {
    total' := PutByte(dst, total, id, was, w);
    var err;
    total', err := WriteLP(dst, total', value, was, w + [id]);
    assert w + [id] + LP(value) == w + ([id] + LP(value));
  }

  method BufProp(buf: ByteBuffer, id: Byte, value: Data)
    modifies buf
    ensures buf.data == old(buf.data) + ([id] + value)
  {
    buf.WriteByte(id);
    buf.Write(value);
  }

  method BufLPProp(buf: ByteBuffer, id: Byte, value: Data)
    requires |value| <= MAX_LP
    modifies buf
    ensures buf.data == old(buf.data) + ([id] + LP(value))
  {
    buf.WriteByte(id);
    var err := BufLP(buf, value);
  }

  class PublishMessage {
    var mtypeflags: Byte
    var remlen: nat
    var propertiesLen: nat
    var packetId: nat
    var topic: Data
    var payloadFormatIndicator: Byte
    var messageExpiryInterval: nat
    var topicAlias: nat
    var responseTopic: Data
    var correlationData: Data
    var userProperty: seq<Data>
    var subscriptionIdentifier: nat
    var contentType: Data
    var payload: Data

    /** NewPublishMessage. */
    constructor ()
      ensures Valid() && Value() == NEW
    {
      mtypeflags, remlen, propertiesLen, packetId := 48, 0, 0, 0;
      topic, payloadFormatIndicator, messageExpiryInterval, topicAlias := [], 0, 0, 0;
      responseTopic, correlationData, userProperty := [], [], [];
      subscriptionIdentifier, contentType, payload := 0, [], [];
    }

    ghost predicate Valid()
      reads this
    {
      mtypeflags / 16 == PUBLISH
    }

    function QoS(): nat
      reads this`mtypeflags
    {
      mtypeflags / 2 % 4
    }

    ghost function Value(): Publish
      reads this
    {
      Publish(mtypeflags / 8 % 2 == 1, QoS(), mtypeflags % 2 == 1, topic, packetId,
              payloadFormatIndicator, messageExpiryInterval, topicAlias, responseTopic, correlationData,
              userProperty, subscriptionIdentifier, contentType, payload)
    }

    lemma FirstIsFlags()
      requires Valid()
      ensures First(Value()) == mtypeflags && TypeValid(mtypeflags)
    {
      var b: int := mtypeflags;
      assert b == 16 * (b / 16) + 8 * (b / 8 % 2) + 2 * (b / 2 % 4) + b % 2;
    }

    /** build: the property length and the remaining length, before anything is written. */
    method Build()
      requires Fits(Value())
      modifies `remlen, `propertiesLen
      ensures remlen == |Body(Value())| && propertiesLen == |Encs(Value(), 0)|
    {
      BodySize(Value());
      EncsSize(Value());
      hide Enc, Encs, Body, Varint, PropsFit;
      var total := 2;
      total := total + |topic|;
      if QoS() != 0 {
        total := total + 2;
      }
      var tag := total;
      total := AddNumbers(total);
      total := AddStrings(total);
      propertiesLen := total - tag;
      var b := LbEncode(propertiesLen);
      total := total + |b|;
      total := total + |payload|;
      remlen := total;
    }

    method AddNumbers(sofar: nat) returns (total: nat)
      ensures total == sofar + |Enc(Value(), 0)| + |Enc(Value(), 1)| + |Enc(Value(), 2)|
    {
      EncSizes(Value());
      hide Enc;
      total := sofar;
      if payloadFormatIndicator != 0 {
        total := total + 2;
      }
      if messageExpiryInterval > 0 {
        total := total + 5;
      }
      if topicAlias > 0 {
        total := total + 3;
      }
    }

    method AddStrings(sofar: nat) returns (total: nat)
      ensures total ==
        sofar + |Enc(Value(), 3)| + |Enc(Value(), 4)| + |Enc(Value(), 5)| + |Enc(Value(), 6)| + |Enc(Value(), 7)|
    {
      EncSizes(Value());
      hide Enc, Varint, Props;
      total := sofar;
      if |responseTopic| > 0 {
        total := total + 1;
        total := total + 2;
        total := total + |responseTopic|;
      }
      if |correlationData| > 0 {
        total := total + 1;
        total := total + 2;
        total := total + |correlationData|;
      }
      var n := PropsLen(userProperty);
      total := total + n;
      if 0 < subscriptionIdentifier < SUB_LIMIT {
        total := total + 1;
        var b1 := LbEncode(subscriptionIdentifier);
        total := total + |b1|;
      }
      if |contentType| > 0 {
        total := total + 1;
        total := total + 2;
        total := total + |contentType|;
      }
    }

    /** Len: as many bytes as the writers write. */
    method Len() returns (n: nat)
      requires Valid() && Fits(Value())
      modifies `remlen, `propertiesLen
      ensures n == |Wire(Value())| && remlen == |Body(Value())| && propertiesLen == |Encs(Value(), 0)|
    {
      Build();
      n := MsgLen(remlen);
      assert n == |Header(First(Value()), remlen)|;
      n := n + remlen;
    }

    /** Encode, at a moving place of the array. */
    method Encode(dst: array<Byte>) returns (n: nat, err: bool)
      requires Valid() && Fits(Value())
      modifies `remlen, `propertiesLen, dst
      ensures err <==> !Writable(Value()) || dst.Length < |Wire(Value())|
      ensures err ==> dst[..] == old(dst[..])
      ensures !err ==> n == |Wire(Value())| && Filled(dst[..], old(dst[..]), Wire(Value()))
    {
      ghost var m := Value();
      if |topic| == 0 && topicAlias == 0 {
        return 0, true;
      }
      if |payload| == 0 {
        return 0, true;
      }
      Build();
      var ml := remlen;
      var hl := MsgLen(remlen);
      assert hl == |Header(First(m), remlen)|;
      if dst.Length < hl + ml {
        return 0, true;
      }
      FirstIsFlags();
      ghost var was := dst[..];
      var total: nat;
      total, err := EncodeHeader(dst, mtypeflags, remlen, was);
      total := EncodeBody(dst, total, was);
      return total, false;
    }

    method EncodeBody(dst: array<Byte>, at: nat, ghost was: Data) returns (total: nat)
      requires Fits(Value()) && propertiesLen == |Encs(Value(), 0)|
      requires var h := Header(First(Value()), |Body(Value())|);
        Filled(dst[..], was, h) && at == |h| && |Wire(Value())| <= dst.Length
      modifies dst
      ensures Filled(dst[..], was, Wire(Value())) && total == |Wire(Value())|
    {
      ghost var m, h := Value(), Header(First(Value()), |Body(Value())|);
      ghost var w := h + Front(m);
      BodyParts(m, h);
      WrittenFits(m, 8);
      hide Header, Encs, Body, Filled, Front, Enc, Written, Wire;
      total := EncodeFront(dst, at, was, h);
      total := EncodeNumbers(dst, total, was, w);
      total := EncodeStrings(dst, total, was, w);
      total := PutBytes(dst, total, payload, was, w + Written(m, 8));
    }

    method EncodeFront(dst: array<Byte>, at: nat, ghost was: Data, ghost h: Data) returns (total: nat)
      requires Fits(Value()) && propertiesLen == |Encs(Value(), 0)|
      requires Filled(dst[..], was, h) && at == |h| && |h + Front(Value())| <= dst.Length
      modifies dst
      ensures Filled(dst[..], was, h + Front(Value())) && total == |h + Front(Value())|
    {
      ghost var m := Value();
      BodySize(m);
      FrontAfter(m, h);
      hide Encs, Body, Filled, LP, Varint, Front, PropsFit;
      var err;
      total, err := WriteLP(dst, at, topic, was, h);
      if QoS() != 0 {
        total := PutBytes(dst, total, U16(packetId), was, h + LP(m.topic));
      }
      var b := LbEncode(propertiesLen);
      total := PutBytes(dst, total, b, was, h + LP(m.topic) + Pid(m));
    }

    method EncodeNumbers(dst: array<Byte>, at: nat, ghost was: Data, ghost w: Data) returns (total: nat)
      requires Fits(Value()) && Filled(dst[..], was, w) && at == |w|
      requires |w + Written(Value(), 8)| <= dst.Length
      modifies dst
      ensures Filled(dst[..], was, w + Written(Value(), 3)) && total == |w + Written(Value(), 3)|
    {
      ghost var m := Value();
      FitsSoFar(m, w, 0);
      hide Filled, Body, Written, Fits, Props, Varint, LP;
      total := at;
      if payloadFormatIndicator != 0 {
        total := PutProp(dst, total, 0x01, [payloadFormatIndicator], was, w + Written(m, 0));
      }
      FitsSoFar(m, w, 1);
      if messageExpiryInterval > 0 {
        total := PutProp(dst, total, 0x02, U32(messageExpiryInterval), was, w + Written(m, 1));
      }
      FitsSoFar(m, w, 2);
      if topicAlias > 0 {
        total := PutProp(dst, total, 0x23, U16(topicAlias), was, w + Written(m, 2));
      }
    }

    method EncodeStrings(dst: array<Byte>, at: nat, ghost was: Data, ghost w: Data) returns (total: nat)
      requires Fits(Value()) && Filled(dst[..], was, w + Written(Value(), 3)) && at == |w + Written(Value(), 3)|
      requires |w + Written(Value(), 8)| <= dst.Length
      modifies dst
      ensures Filled(dst[..], was, w + Written(Value(), 8)) && total == |w + Written(Value(), 8)|
    {
      ghost var m := Value();
      hide Filled, Body, LP, Varint, Props, Written;
      total := at;
      FitsSoFar(m, w, 3);
      if |responseTopic| > 0 {
        total := PutLPProp(dst, total, 0x08, responseTopic, was, w + Written(m, 3));
      }
      FitsSoFar(m, w, 4);
      if |correlationData| > 0 {
        total := PutLPProp(dst, total, 0x09, correlationData, was, w + Written(m, 4));
      }
      total := EncodeRest(dst, total, was, w);
    }

    method EncodeRest(dst: array<Byte>, at: nat, ghost was: Data, ghost w: Data) returns (total: nat)
      requires Fits(Value()) && Filled(dst[..], was, w + Written(Value(), 5)) && at == |w + Written(Value(), 5)|
      requires |w + Written(Value(), 8)| <= dst.Length
      modifies dst
      ensures Filled(dst[..], was, w + Written(Value(), 8)) && total == |w + Written(Value(), 8)|
    {
      ghost var m := Value();
      hide Filled, Body, LP, Varint, Props, Written;
      total := at;
      FitsSoFar(m, w, 5);
      total := WriteProps(dst, total, userProperty, was, w + Written(m, 5));
      FitsSoFar(m, w, 6);
      if 0 < subscriptionIdentifier < SUB_LIMIT {
        var b1 := LbEncode(subscriptionIdentifier);
        total := PutProp(dst, total, 0x0B, b1, was, w + Written(m, 6));
      }
      FitsSoFar(m, w, 7);
      if |contentType| > 0 {
        total := PutLPProp(dst, total, 0x03, contentType, was, w + Written(m, 7));
      }
    }

    /** EncodeToBuf: the same bytes behind what the buffer holds. */
    method EncodeToBuf(buf: ByteBuffer) returns (err: bool)
      requires Valid() && Fits(Value())
      modifies `remlen, `propertiesLen, buf
      ensures err <==> !Writable(Value())
      ensures buf.data == if err then old(buf.data) else old(buf.data) + Wire(Value())
    {
      ghost var m := Value();
      if |topic| == 0 && topicAlias == 0 {
        return true;
      }
      if |payload| == 0 {
        return true;
      }
      Build();
      FirstIsFlags();
      ghost var h := old(buf.data) + Header(First(m), remlen);
      BodyParts(m, h);
      WireAfter(m, old(buf.data));
      hide Header, Encs, Body, Front, Enc, Written, Wire, Varint, First;
      err := BufHeader(buf, mtypeflags, remlen);
      BufFront(buf);
      BufNumbers(buf, h + Front(m));
      BufStrings(buf, h + Front(m));
      buf.Write(payload);
      return false;
    }

    method BufFront(buf: ByteBuffer)
      requires Fits(Value()) && propertiesLen == |Encs(Value(), 0)|
      modifies buf
      ensures buf.data == old(buf.data) + Front(Value())
    {
      ghost var m, h := Value(), buf.data;
      BodySize(m);
      FrontAfter(m, h);
      hide Encs, Body, LP, Varint, Front, PropsFit;
      var err := BufLP(buf, topic);
      if QoS() != 0 {
        buf.Write(U16(packetId));
      }
      var b := LbEncode(propertiesLen);
      buf.Write(b);
    }

    method BufNumbers(buf: ByteBuffer, ghost w: Data)
      requires buf.data == w
      modifies buf
      ensures buf.data == w + Written(Value(), 3)
    {
      ghost var m := Value();
      assert w == w + Written(m, 0);
      hide Written;
      Grows(m, 0, w);
      if payloadFormatIndicator != 0 {
        BufProp(buf, 0x01, [payloadFormatIndicator]);
      }
      Grows(m, 1, w);
      if messageExpiryInterval > 0 {
        BufProp(buf, 0x02, U32(messageExpiryInterval));
      }
      Grows(m, 2, w);
      if topicAlias > 0 {
        BufProp(buf, 0x23, U16(topicAlias));
      }
    }

    method BufStrings(buf: ByteBuffer, ghost w: Data)
      requires Fits(Value()) && buf.data == w + Written(Value(), 3)
      modifies buf
      ensures buf.data == w + Written(Value(), 8)
    {
      ghost var m := Value();
      hide LP, Varint, Props, Body, Written;
      Grows(m, 3, w);
      if |responseTopic| > 0 {
        BufLPProp(buf, 0x08, responseTopic);
      }
      Grows(m, 4, w);
      if |correlationData| > 0 {
        BufLPProp(buf, 0x09, correlationData);
      }
      BufRest(buf, w);
    }

    method BufRest(buf: ByteBuffer, ghost w: Data)
      requires Fits(Value()) && buf.data == w + Written(Value(), 5)
      modifies buf
      ensures buf.data == w + Written(Value(), 8)
    {
      ghost var m := Value();
      hide LP, Varint, Props, Body, Written;
      Grows(m, 5, w);
      var err := BufProps(buf, userProperty);
      Grows(m, 6, w);
      if 0 < subscriptionIdentifier < SUB_LIMIT {
        var b1 := LbEncode(subscriptionIdentifier);
        BufProp(buf, 0x0B, b1);
      }
      Grows(m, 7, w);
      if |contentType| > 0 {
        BufLPProp(buf, 0x03, contentType);
      }
    }

    // ---------- reading ----------

    /** Decode: yields or fails as DecodeInto says, and leaves the fields that LeftBy says. */
    method Decode(src: Data) returns (r: Parsed<()>)
      requires Valid()
      modifies this
      ensures match DecodeInto(old(Value()), src)
              case Bad => r == Bad && Value() == LeftBy(old(Value()), src)
              case Panics => r == Panics && Value() == LeftBy(old(Value()), src)
              case Ok(m, n) => r == Ok((), n) && Value() == m
      ensures ParseHeader(src, PUBLISH, 0).Ok? || src == [] ==> Valid()
    {
      hide DecodeBody, LeftByBody, FirstOk, GoUvarint;
      var head := ParseHeader(src, PUBLISH, 0);
      if head.Panics? {
        return Panics;
      }
      mtypeflags := src[0];
      if head.Bad? {
        return Bad;
      }
      var hn := head.n;
      HeaderFirst(src);
      r := DecodeFields(head.value, hn, src[hn..], old(Value()));
    }

    method DecodeFields(head: Head, hn: nat, body: Data, ghost m0: Publish) returns (r: Parsed<()>)
      requires head.remlen <= |body| && mtypeflags == head.first && head.first / 16 == PUBLISH
      requires Value() == Flagged(m0, head.first)
      modifies this
      ensures match DecodeBody(m0, head, hn, body)
              case Bad => r == Bad && Value() == LeftByBody(m0, head, hn, body)
              case Panics => r == Panics && Value() == LeftByBody(m0, head, hn, body)
              case Ok(m, n) => r == Ok((), n) && Value() == m
      ensures Valid()
    {
      hide Steps, DecodeFront, LeftByFront, Flagged;
      remlen := head.remlen;
      var front := ReadFront(head.first, body, m0);
      if !front.Ok? {
        return if front.Bad? then Bad else Panics;
      }
      var done := DecodeProperties(body[front.n..]);
      if !done.Ok? {
        return if done.Bad? then Bad else Panics;
      }
      var rest := done.value;
      var used := |body| - |rest|;
      var l := remlen - used;
      if l < 0 {
        return Panics;
      }
      payload := rest[..l];
      return Ok((), hn + remlen);
    }

    method ReadFront(first: Byte, body: Data, ghost m0: Publish) returns (r: Parsed<()>)
      requires mtypeflags == first && Value() == Flagged(m0, first)
      modifies `topic, `packetId, `propertiesLen
      ensures match DecodeFront(m0, first, body)
              case Bad => r == Bad && Value() == LeftByFront(m0, first, body)
              case Panics => r == Panics && Value() == LeftByFront(m0, first, body)
              case Ok(m, n) => r == Ok((), n) && Value() == m
    {
      hide ParseLP, LbParse;
      var field := ParseLP(body);
      if field.Panics? {
        return Panics;
      }
      topic := if field.Ok? then field.value else [];
      if field.Bad? {
        return Bad;
      }
      var total := field.n;
      if QoS() != 0 {
        if |body| - total < 2 {
          return Panics;
        }
        packetId := ParseU16(body[total..]).value;
        total := total + 2;
      }
      assert body[field.n..][total - field.n..] == body[total..];
      var len := LbDecode(body[total..]);
      if !len.Ok? {
        return if len.Bad? then Bad else Panics;
      }
      propertiesLen := len.value;
      return Ok((), total + len.n);
    }

    /** What a run of steps must leave: the fields of the message read so far and the rest of
        the bytes. */
    ghost predicate Reached(c: Cursor, r: Parsed<Data>)
      reads this
    {
      && Value() == c.m
      && r == if c.Failed? then (if c.panics then Panics else Bad) else Ok(c.rest, 0)
    }

    /** The properties one after another, until one fails. */
    method DecodeProperties(src: Data) returns (r: Parsed<Data>)
      modifies `payloadFormatIndicator, `messageExpiryInterval, `topicAlias, `responseTopic, `correlationData,
        `userProperty, `subscriptionIdentifier, `contentType
      ensures Reached(Steps(At(old(Value()), src), 0), r)
    {
      AllSteps(At(Value(), src));
      hide FirstFour, LastFour, Steps;
      r := DecodeFirst(src);
      if r.Ok? {
        r := DecodeLast(r.value);
      }
    }

    method DecodeFirst(src: Data) returns (r: Parsed<Data>)
      modifies `payloadFormatIndicator, `messageExpiryInterval, `topicAlias, `responseTopic
      ensures Reached(FirstFour(At(old(Value()), src)), r)
    {
      hide FormatStep, ExpiryStep, AliasStep, ResponseStep;
      r := DecodeFormat(src);
      if r.Ok? {
        r := DecodeExpiry(r.value);
      }
      if r.Ok? {
        r := DecodeAlias(r.value);
      }
      if r.Ok? {
        r := DecodeResponse(r.value);
      }
    }

    method DecodeLast(src: Data) returns (r: Parsed<Data>)
      modifies `correlationData, `userProperty, `subscriptionIdentifier, `contentType
      ensures Reached(LastFour(At(old(Value()), src)), r)
    {
      hide CorrelationStep, UserStep, IdStep, ContentStep;
      r := DecodeCorrelation(src);
      if r.Ok? {
        r := DecodeUserProperty(r.value);
      }
      if r.Ok? {
        r := DecodeIdentifier(r.value);
      }
      if r.Ok? {
        r := DecodeContent(r.value);
      }
    }

    method DecodeFormat(rest: Data) returns (r: Parsed<Data>)
      modifies `payloadFormatIndicator
      ensures Reached(FormatStep(old(Value()), rest), r)
    {
      hide ParseByte, Opt, Kept;
      var v := Opt(0x01, rest, payloadFormatIndicator, ParseByte(Behind(rest)), false);
      if !v.Ok? {
        payloadFormatIndicator := Kept(ParseByte(Behind(rest)), payloadFormatIndicator, payloadFormatIndicator);
        return if v.Bad? then Bad else Panics;
      }
      payloadFormatIndicator := v.value;
      return Ok(rest[v.n..], 0);
    }

    method DecodeExpiry(rest: Data) returns (r: Parsed<Data>)
      modifies `messageExpiryInterval
      ensures Reached(ExpiryStep(old(Value()), rest), r)
    {
      hide ParseU32, Opt;
      var v := Opt(0x02, rest, messageExpiryInterval, ParseU32(Behind(rest)), false);
      if !v.Ok? {
        messageExpiryInterval := Kept(ParseU32(Behind(rest)), messageExpiryInterval, messageExpiryInterval);
        return if v.Bad? then Bad else Panics;
      }
      messageExpiryInterval := v.value;
      return Ok(rest[v.n..], 0);
    }

    method DecodeAlias(rest: Data) returns (r: Parsed<Data>)
      modifies `topicAlias
      ensures Reached(AliasStep(old(Value()), rest), r)
    {
      hide ParseU16, Opt, ValidTopic;
      var v := Opt(0x23, rest, topicAlias, ParseU16(Behind(rest)), ParseU16(Behind(rest)) == Ok(0, 2));
      if !v.Ok? {
        topicAlias := Kept(ParseU16(Behind(rest)), topicAlias, topicAlias);
        return if v.Bad? then Bad else Panics;
      }
      if v.value == 0 && !ValidTopic(topic) {
        return Bad;
      }
      topicAlias := v.value;
      return Ok(rest[v.n..], 0);
    }

    method DecodeResponse(rest: Data) returns (r: Parsed<Data>)
      modifies `responseTopic
      ensures Reached(ResponseStep(old(Value()), rest), r)
    {
      hide OptLP;
      var v := OptLP(0x08, rest, responseTopic);
      if !v.Ok? {
        responseTopic := Kept(ParseLP(Behind(rest)), [], responseTopic);
        return if v.Bad? then Bad else Panics;
      }
      responseTopic := v.value;
      return Ok(rest[v.n..], 0);
    }

    method DecodeCorrelation(rest: Data) returns (r: Parsed<Data>)
      modifies `correlationData
      ensures Reached(CorrelationStep(old(Value()), rest), r)
    {
      hide OptLP;
      var v := OptLP(0x09, rest, correlationData);
      if !v.Ok? {
        correlationData := Kept(ParseLP(Behind(rest)), [], correlationData);
        return if v.Bad? then Bad else Panics;
      }
      correlationData := v.value;
      return Ok(rest[v.n..], 0);
    }

    method DecodeUserProperty(rest: Data) returns (r: Parsed<Data>)
      modifies `userProperty
      ensures Reached(UserStep(old(Value()), rest), r)
    {
      hide ParseProps;
      var v := ReadProps(rest);
      if !v.Ok? {
        userProperty := Kept(v, PropsSoFar(rest), userProperty);
        return if v.Bad? then Bad else Panics;
      }
      userProperty := v.value;
      return Ok(rest[v.n..], 0);
    }

    method DecodeIdentifier(rest: Data) returns (r: Parsed<Data>)
      modifies `subscriptionIdentifier
      ensures Reached(IdStep(old(Value()), rest), r)
    {
      hide LbParse, Opt;
      var id := LbDecode(Behind(rest));
      var v := Opt(0x0B, rest, subscriptionIdentifier, id, id.Ok? && id.value == 0);
      if !v.Ok? {
        subscriptionIdentifier := Kept(id, 0, subscriptionIdentifier);
        return if v.Bad? then Bad else Panics;
      }
      subscriptionIdentifier := v.value;
      return Ok(rest[v.n..], 0);
    }

    method DecodeContent(rest: Data) returns (r: Parsed<Data>)
      modifies `contentType
      ensures Reached(ContentStep(old(Value()), rest), r)
    {
      hide OptLP;
      var v := OptLP(0x03, rest, contentType);
      if !v.Ok? {
        contentType := Kept(ParseLP(Behind(rest)), [], contentType);
        return if v.Bad? then Bad else Panics;
      }
      contentType := v.value;
      return Ok(rest[v.n..], 0);
    }
  }

  /** Room for the k-th property, and what it adds. */
  lemma FitsSoFar(m: Publish, w: Data, k: nat)
    requires k < 8
    ensures w + Written(m, k) + Enc(m, k) == w + Written(m, k + 1)
    ensures Enc(m, k) == [] ==> w + Written(m, k) == w + Written(m, k + 1)
    ensures |w + Written(m, k + 1)| <= |w + Written(m, 8)| && w + Written(m, 0) == w
  {
    Grows(m, k, w);
    WrittenFits(m, k + 1);
    assert Written(m, 0) == [];
  }

  /** The steps of the reader, in the groups the methods take them in. */
  ghost function FirstFour(c: Cursor): Cursor {
    Step(Step(Step(Step(c, 0), 1), 2), 3)
  }

  ghost function LastFour(c: Cursor): Cursor {
    Step(Step(Step(Step(c, 4), 5), 6), 7)
  }

  /** What a header starts with. */
  lemma HeaderFirst(src: Data)
    requires ParseHeader(src, PUBLISH, 0).Ok?
    ensures src != [] && ParseHeader(src, PUBLISH, 0).value.first == src[0] && src[0] / 16 == PUBLISH
  {
    hide GoUvarint;
  }

  lemma AllSteps(c: Cursor)
    ensures Steps(c, 0) == LastFour(FirstFour(c))
    ensures FirstFour(c).Failed? ==> LastFour(FirstFour(c)) == FirstFour(c)
  {
  }

  lemma FrontAfter(m: Publish, h: Data)
    ensures h + Front(m) == h + LP(m.topic) + Pid(m) + Varint(|Encs(m, 0)|)
    ensures m.qos == 0 ==> h + LP(m.topic) + Pid(m) == h + LP(m.topic)
    ensures |LP(m.topic)| == 2 + |m.topic|
  {
    assert |LP(m.topic)| == 2 + |m.topic| && (m.qos == 0 ==> Pid(m) == []);
    hide LP, Pid, Varint, Encs;
  }

  lemma WireAfter(m: Publish, d: Data)
    requires m.qos < 4
    ensures d + Wire(m) == d + Header(First(m), |Body(m)|) + Body(m)
  {
  }

  /** The pieces of a packet's body in the order they are written. */
  lemma BodyParts(m: Publish, h: Data)
    ensures h + Body(m) == h + Front(m) + Written(m, 8) + m.payload
  {
    WrittenFits(m, 8);
    hide Written, Encs, Front;
    assert Body(m) == Front(m) + Written(m, 8) + m.payload;
  }
}
