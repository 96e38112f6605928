/**
  The PUBLISH packet of section 3.3 of MQTT Version 5.0 as publish.go writes and reads it.
  The reader tells properties by their identifiers and ignores the property length, so that
  which messages it recovers depends on how their payload begins.
 */
module PublishSpec {
  import opened Bytes
  import opened Varints
  import opened Fields
  import opened Headers

  datatype Publish = Publish(
    dup: bool, qos: nat, retain: bool, topic: Data, pid: nat,
    format: Byte, expiry: nat, alias: nat, response: Data, correlation: Data,
    props: seq<Data>, subId: nat, content: Data, payload: Data)

  const NEW := Publish(false, 0, false, [], 0, 0, 0, 0, [], [], [], 0, [], [])

  /** From here on a subscription identifier is not written (the standard's bound is
      268435455). */
  const SUB_LIMIT := 168435455

  function First(m: Publish): Byte
    requires m.qos < 4
  {
    48 + (if m.dup then 8 else 0) + 2 * m.qos + if m.retain then 1 else 0
  }

  // ---------- the properties in the order of the packet ----------

  const IDS: seq<Byte> := [0x01, 0x02, 0x23, 0x08, 0x09, USER_PROPERTY, 0x0B, 0x03]

  /** The k-th property, nothing when it is not set. */
  function Enc(m: Publish, k: nat): Data
    requires k < 8
  {
    match k
    case 0 => if m.format != 0 then [0x01] + [m.format] else []
    case 1 => if m.expiry > 0 then [0x02] + U32(m.expiry) else []
    case 2 => if m.alias > 0 then [0x23] + U16(m.alias) else []
    case 3 => if |m.response| > 0 then [0x08] + LP(m.response) else []
    case 4 => if |m.correlation| > 0 then [0x09] + LP(m.correlation) else []
    case 5 => Props(m.props)
    case 6 => if 0 < m.subId < SUB_LIMIT then [0x0B] + Varint(m.subId) else []
    case 7 => if |m.content| > 0 then [0x03] + LP(m.content) else []
  }

  /** The properties from the k-th on. */
  function Encs(m: Publish, k: nat): Data
    requires k <= 8
    decreases 8 - k
  {
    if k == 8 then [] else Enc(m, k) + Encs(m, k + 1)
  }

  function Pid(m: Publish): Data {
    if m.qos != 0 then U16(m.pid) else []
  }

  /** The topic, the packet identifier and the property length. */
  function Front(m: Publish): (b: Data)
    ensures b != []
  {
    LP(m.topic) + Pid(m) + Varint(|Encs(m, 0)|)
  }

  function Body(m: Publish): (b: Data)
    ensures |b| > |m.payload|
  {
    Front(m) + Encs(m, 0) + m.payload
  }

  function Wire(m: Publish): Data
    requires m.qos < 4
  {
    Header(First(m), |Body(m)|) + Body(m)
  }

  /** Field limits; a packet that needs an identifier has one. */
  predicate Fits(m: Publish) {
    && m.qos <= 2 && m.pid < 65536 && (m.qos != 0 ==> m.pid != 0)
    && m.expiry < 0x1_0000_0000 && m.alias < 65536 && m.subId < 0x1_0000_0000
    && |m.topic| <= MAX_LP && |m.response| <= MAX_LP && |m.correlation| <= MAX_LP && |m.content| <= MAX_LP
    && PropsFit(m.props) && |Body(m)| <= MAX_REMAINING
  }

  /** What the writers refuse. */
  predicate Writable(m: Publish) {
    !(m.topic == [] && m.alias == 0) && m.payload != []
  }

  predicate ValidTopic(topic: Data) {
    topic != [] && 0x23 !in topic && 0x2B !in topic
  }

  // ---------- reading ----------

  /** A message read so far and the bytes left, or one that its reading failed on. */
  datatype Cursor = At(m: Publish, rest: Data) | Failed(m: Publish, panics: bool)

  /** An optional property: absent when the next byte is not its identifier, an error when
      its value is refused or the identifier comes again. */
  function Opt<T>(id: Byte, rest: Data, absent: T, read: Parsed<T>, refused: bool): (r: Parsed<T>)
    ensures r.Ok? && (rest == [] || (read.Ok? ==> read.n < |rest|)) ==> r.n <= |rest|
  {
    if rest == [] || rest[0] != id then Ok(absent, 0)
    else
      match read
      case Ok(v, n) => if refused || (|rest| > 1 + n && rest[1 + n] == id) then Bad else Ok(v, 1 + n)
      case other => other
  }

  /** What follows the identifier. */
  function Behind(rest: Data): Data {
    if rest == [] then [] else rest[1..]
  }

  function Moved(m: Publish, rest: Data, n: nat): Cursor {
    if n <= |rest| then At(m, rest[n..]) else Failed(m, true)
  }

  /** What a field holds after a failure: what was read, what an error return sets, or after
      an index out of range what it was. */
  function Kept<T>(read: Parsed<T>, onError: T, was: T): T {
    match read
    case Ok(v, _) => v
    case Bad => onError
    case Panics => was
  }

  function FormatStep(m: Publish, rest: Data): Cursor {
    match Opt(0x01, rest, m.format, ParseByte(Behind(rest)), false)
    case Ok(v, n) => Moved(m.(format := v), rest, n)
    case bad => Failed(m.(format := Kept(ParseByte(Behind(rest)), m.format, m.format)), bad.Panics?)
  }

  function ExpiryStep(m: Publish, rest: Data): Cursor {
    match Opt(0x02, rest, m.expiry, ParseU32(Behind(rest)), false)
    case Ok(v, n) => Moved(m.(expiry := v), rest, n)
    case bad => Failed(m.(expiry := Kept(ParseU32(Behind(rest)), m.expiry, m.expiry)), bad.Panics?)
  }

  /** The alias, zero refused; without one the topic is checked here. */
  function AliasStep(m: Publish, rest: Data): Cursor {
    match Opt(0x23, rest, m.alias, ParseU16(Behind(rest)), ParseU16(Behind(rest)) == Ok(0, 2))
    case Ok(v, n) => if v == 0 && !ValidTopic(m.topic) then Failed(m, false) else Moved(m.(alias := v), rest, n)
    case bad => Failed(m.(alias := Kept(ParseU16(Behind(rest)), m.alias, m.alias)), bad.Panics?)
  }

  /** Length-prefixed bytes, none refused. */
  function OptLP(id: Byte, rest: Data, absent: Data): (r: Parsed<Data>)
    ensures r.Ok? ==> r.n <= |rest|
  {
    Opt(id, rest, absent, ParseLP(Behind(rest)), ParseLP(Behind(rest)) == Ok([], 2))
  }

  function ResponseStep(m: Publish, rest: Data): Cursor {
    match OptLP(0x08, rest, m.response)
    case Ok(v, n) => Moved(m.(response := v), rest, n)
    case bad => Failed(m.(response := Kept(ParseLP(Behind(rest)), [], m.response)), bad.Panics?)
  }

  function CorrelationStep(m: Publish, rest: Data): Cursor {
    match OptLP(0x09, rest, m.correlation)
    case Ok(v, n) => Moved(m.(correlation := v), rest, n)
    case bad => Failed(m.(correlation := Kept(ParseLP(Behind(rest)), [], m.correlation)), bad.Panics?)
  }

  function UserStep(m: Publish, rest: Data): Cursor {
    match ParseProps(rest)
    case Ok(v, n) => At(m.(props := v), rest[n..])
    case bad => Failed(m.(props := Kept(ParseProps(rest), PropsSoFar(rest), m.props)), bad.Panics?)
  }

  function IdStep(m: Publish, rest: Data): Cursor {
    var id := LbParse(Behind(rest));
    match Opt(0x0B, rest, m.subId, id, id.Ok? && id.value == 0)
    case Ok(v, n) => Moved(m.(subId := v), rest, n)
    case bad => Failed(m.(subId := Kept(id, 0, m.subId)), bad.Panics?)
  }

  function ContentStep(m: Publish, rest: Data): Cursor {
    match OptLP(0x03, rest, m.content)
    case Ok(v, n) => Moved(m.(content := v), rest, n)
    case bad => Failed(m.(content := Kept(ParseLP(Behind(rest)), [], m.content)), bad.Panics?)
  }

  function Step(c: Cursor, k: nat): Cursor
    requires k < 8
  {
    if c.Failed? then c
    else
      match k
      case 0 => FormatStep(c.m, c.rest)
      case 1 => ExpiryStep(c.m, c.rest)
      case 2 => AliasStep(c.m, c.rest)
      case 3 => ResponseStep(c.m, c.rest)
      case 4 => CorrelationStep(c.m, c.rest)
      case 5 => UserStep(c.m, c.rest)
      case 6 => IdStep(c.m, c.rest)
      case 7 => ContentStep(c.m, c.rest)
  }

  function Steps(c: Cursor, k: nat): Cursor
    requires k <= 8
    decreases 8 - k
  {
    if k == 8 then c else Steps(Step(c, k), k + 1)
  }

  /** Decode into a message that holds m0; what the packet does not carry stays. */
  function DecodeInto(m0: Publish, src: Data): Parsed<Publish> {
    match ParseHeader(src, PUBLISH, 0)
    case Bad => Bad
    case Panics => Panics
    case Ok(head, hn) => DecodeBody(m0, head, hn, src[hn..])
  }

  function DecodeBody(m0: Publish, head: Head, hn: nat, body: Data): Parsed<Publish>
    requires head.remlen <= |body|
  {
    match DecodeFront(m0, head.first, body)
    case Bad => Bad
    case Panics => Panics
    case Ok(m1, n) => DecodePayload(head, hn, |body|, Steps(At(m1, body[n..]), 0))
  }

  /** The flags, the topic, the packet identifier and the property length, the last of which
      is not used. */
  function DecodeFront(m0: Publish, first: Byte, body: Data): (r: Parsed<Publish>)
    ensures r.Ok? ==> r.n <= |body|
  {
    var qos := first / 2 % 4;
    match ParseLP(body)
    case Bad => Bad
    case Panics => Panics
    case Ok(topic, n) =>
      var rest := body[n..];
      if qos != 0 && |rest| < 2 then Panics
      else
        var pid := if qos != 0 then ParseU16(rest).value else m0.pid;
        var k := if qos != 0 then 2 else 0;
        match LbParse(rest[k..])
        case Bad => Bad
        case Panics => Panics
        case Ok(_, l) =>
          Ok(Flagged(m0, first).(topic := topic, pid := pid), n + k + l)
  }

  function DecodePayload(head: Head, hn: nat, size: nat, c: Cursor): Parsed<Publish>
    requires head.remlen <= size
  {
    if c.Failed? then (if c.panics then Panics else Bad)
    else
      var used := size - |c.rest|;
      if head.remlen < used then Panics
      else Ok(c.m.(payload := c.rest[..head.remlen - used]), hn + head.remlen)
  }

  /** The fields Decode leaves, whether or not it succeeds. */
  function LeftBy(m0: Publish, src: Data): Publish {
    match ParseHeader(src, PUBLISH, 0)
    case Bad => Flagged(m0, src[0])
    case Panics => m0
    case Ok(head, hn) => LeftByBody(m0, head, hn, src[hn..])
  }

  function Flagged(m0: Publish, first: Byte): Publish {
    m0.(dup := first / 8 % 2 == 1, qos := first / 2 % 4, retain := first % 2 == 1)
  }

  function LeftByBody(m0: Publish, head: Head, hn: nat, body: Data): Publish
    requires head.remlen <= |body|
  {
    match DecodeFront(m0, head.first, body)
    case Ok(m1, n) =>
      var c := Steps(At(m1, body[n..]), 0);
      var r := DecodePayload(head, hn, |body|, c);
      if r.Ok? then r.value else c.m
    case _ => LeftByFront(m0, head.first, body)
  }

  function LeftByFront(m0: Publish, first: Byte, body: Data): Publish {
    var m1 := Flagged(m0, first);
    match ParseLP(body)
    case Bad => m1.(topic := [])
    case Panics => m1
    case Ok(topic, n) =>
      var rest := body[n..];
      if m1.qos != 0 && |rest| >= 2 then m1.(topic := topic, pid := ParseU16(rest).value)
      else m1.(topic := topic)
  }

  // ---------- which messages come back ----------

  /** What a reader that holds m0 makes of the written message if it tells the fields apart:
      what is not written stays as it was. */
  function Received(m0: Publish, m: Publish): Publish {
    m.(pid := if m.qos == 0 then m0.pid else m.pid,
       format := if m.format != 0 then m.format else m0.format,
       expiry := if m.expiry > 0 then m.expiry else m0.expiry,
       alias := if m.alias > 0 then m.alias else m0.alias,
       response := if m.response != [] then m.response else m0.response,
       correlation := if m.correlation != [] then m.correlation else m0.correlation,
       props := Padded(m.props),
       subId := if 0 < m.subId < SUB_LIMIT then m.subId else m0.subId,
       content := if m.content != [] then m.content else m0.content)
  }

  /** No property is written from the k-th on. */
  predicate NoneFrom(m: Publish, k: nat)
    requires k <= 8
  {
    forall j :: k <= j < 8 ==> Enc(m, j) == []
  }

  /** The payload begins with the identifier of a property behind which none is set: the
      reader takes it for one. */
  predicate TrappedAt(m: Publish, k: nat)
    requires k < 8
  {
    NoneFrom(m, k + 1) && m.payload != [] && m.payload[0] == IDS[k]
  }

  predicate Trapped(m: Publish) {
    exists k :: 0 <= k < 8 && TrappedAt(m, k)
  }

  /** The properties from the k-th on, and the payload. */
  function Tail(m: Publish, k: nat): Data
    requires k <= 8
  {
    Encs(m, k) + m.payload
  }

  /** The fields read before the k-th property. */
  function Upto(m0: Publish, m: Publish, k: nat): Publish {
    var s := Received(m0, m);
    Publish(m.dup, m.qos, m.retain, m.topic, s.pid,
            if k > 0 then s.format else m0.format, if k > 1 then s.expiry else m0.expiry,
            if k > 2 then s.alias else m0.alias, if k > 3 then s.response else m0.response,
            if k > 4 then s.correlation else m0.correlation, if k > 5 then s.props else m0.props,
            if k > 6 then s.subId else m0.subId, if k > 7 then s.content else m0.content, m0.payload)
  }

  /** Whether the topic check passes. */
  predicate TopicOk(m0: Publish, m: Publish) {
    m.alias != 0 || m0.alias != 0 || ValidTopic(m.topic)
  }

  lemma EncStarts(m: Publish, k: nat)
    requires k < 8 && Enc(m, k) != []
    ensures Enc(m, k)[0] == IDS[k]
  {
  }

  lemma IdsDiffer(i: nat, j: nat)
    requires i < 8 && j < 8 && IDS[i] == IDS[j]
    ensures i == j
  {
  }

  /** What follows begins with the identifier of the next property set, or is the payload. */
  lemma {:induction false} TailHead(m: Publish, k: nat)
    requires k <= 8 && m.payload != []
    ensures Tail(m, k) != []
    ensures NoneFrom(m, k) ==> Tail(m, k) == m.payload
    ensures !NoneFrom(m, k) ==> exists j :: k <= j < 8 && Tail(m, k)[0] == IDS[j]
    decreases 8 - k
  {
    hide Enc, IDS;
    if k < 8 {
      TailHead(m, k + 1);
      assert Tail(m, k) == Enc(m, k) + Tail(m, k + 1);
      if Enc(m, k) != [] {
        EncStarts(m, k);
      } else {
        assert NoneFrom(m, k) <==> NoneFrom(m, k + 1);
      }
    }
  }

  /** An identifier follows its own property only in a trap. */
  lemma NextId(m: Publish, k: nat)
    requires k < 8 && m.payload != []
    ensures Tail(m, k + 1) != [] && (Tail(m, k + 1)[0] == IDS[k] <==> TrappedAt(m, k))
  {
    TailHead(m, k + 1);
    if !NoneFrom(m, k + 1) {
      var j :| k + 1 <= j < 8 && Tail(m, k + 1)[0] == IDS[j];
      if IDS[j] == IDS[k] { IdsDiffer(j, k); }
    }
  }

  lemma TailStep(m: Publish, k: nat)
    requires k < 8
    ensures Tail(m, k) == Enc(m, k) + Tail(m, k + 1)
  {
  }

  /** A property to be told from what follows it. */
  predicate Apart(m0: Publish, m: Publish, k: nat, tail: Data)
    requires k < 8
  {
    tail != [] && tail[0] != IDS[k] && (k == 2 ==> TopicOk(m0, m))
  }

  lemma StepAbsent(m0: Publish, m: Publish, k: nat, tail: Data)
    requires k < 8 && k != 5 && Enc(m, k) == [] && Apart(m0, m, k, tail)
    ensures Step(At(Upto(m0, m, k), tail), k) == At(Upto(m0, m, k + 1), tail)
  {
    assert tail[0..] == tail;
  }

  lemma StepPresent(m0: Publish, m: Publish, k: nat, tail: Data)
    requires Fits(m) && k < 8 && k != 5 && Enc(m, k) != [] && Apart(m0, m, k, tail)
    ensures Step(At(Upto(m0, m, k), Enc(m, k) + tail), k) == At(Upto(m0, m, k + 1), tail)
  {
    hide Step, Upto, Fits, Enc, Apart;
    match k
    case 0 | 1 | 2 => NumberPresent(m0, m, k, tail);
    case 3 | 4 | 7 => BytesPresent(m0, m, k, tail);
    case 6 => IdPresent(m0, m, tail);
  }

  lemma NumberPresent(m0: Publish, m: Publish, k: nat, tail: Data)
    requires Fits(m) && k < 3 && Enc(m, k) != [] && Apart(m0, m, k, tail)
    ensures Step(At(Upto(m0, m, k), Enc(m, k) + tail), k) == At(Upto(m0, m, k + 1), tail)
  {
    hide U16, U32, ParseU16, ParseU32, ParseByte, ValidTopic, Fits, Padded;
    PresentReads(m, k, tail);
  }

  lemma BytesPresent(m0: Publish, m: Publish, k: nat, tail: Data)
    requires Fits(m) && k in {3, 4, 7} && Enc(m, k) != [] && Apart(m0, m, k, tail)
    ensures Step(At(Upto(m0, m, k), Enc(m, k) + tail), k) == At(Upto(m0, m, k + 1), tail)
  {
    hide LP, ParseLP, Fits, Padded, ValidTopic;
    PresentReads(m, k, tail);
  }

  lemma IdPresent(m0: Publish, m: Publish, tail: Data)
    requires Fits(m) && Enc(m, 6) != [] && Apart(m0, m, 6, tail)
    ensures Step(At(Upto(m0, m, 6), Enc(m, 6) + tail), 6) == At(Upto(m0, m, 7), tail)
  {
    hide Varint, LbParse, Fits, ValidTopic;
    PresentReads(m, 6, tail);
  }

  /** Behind a set property's identifier its value reads back, and then comes the rest. */
  lemma PresentReads(m: Publish, k: nat, tail: Data)
    requires Fits(m) && k < 8 && k != 5 && Enc(m, k) != [] && tail != []
    ensures var rest, enc := Enc(m, k) + tail, Enc(m, k)[1..];
      && rest[0] == IDS[k] && Behind(rest) == enc + tail && Reads(m, k, enc + tail, |enc|)
      && rest[1 + |enc|..] == tail && rest[1 + |enc|] == tail[0]
  {
    hide Fits, Reads, Enc, IDS;
    ReadsBack(m, k, tail);
    EncStarts(m, k);
  }

  lemma StepProps(m0: Publish, m: Publish, tail: Data)
    requires Fits(m) && Apart(m0, m, 5, tail)
    ensures Step(At(Upto(m0, m, 5), Enc(m, 5) + tail), 5) == At(Upto(m0, m, 6), tail)
  {
    assert Enc(m, 5) == Props(m.props);
    assert Upto(m0, m, 5).(props := Padded(m.props)) == Upto(m0, m, 6);
    PropsPresent(Upto(m0, m, 5), m.props, tail);
    hide UserStep, Props, Padded, Fits, Apart, Enc, Upto, Received, Opt, ValidTopic, ParseByte, ParseU16, ParseU32,
      ParseLP, LbParse, ParseProps;
  }

  lemma PropsPresent(m: Publish, props: seq<Data>, tail: Data)
    requires PropsFit(props) && tail != [] && tail[0] != USER_PROPERTY
    ensures UserStep(m, Props(props) + tail) == At(m.(props := Padded(props)), tail)
  {
    PropsRoundTrip(props, tail);
    assert (Props(props) + tail)[|Props(props)|..] == tail;
  }

  /** One step over a property, whether it is set or not. */
  lemma StepOn(m0: Publish, m: Publish, k: nat)
    requires Fits(m) && k < 8 && m.payload != [] && !TrappedAt(m, k)
    requires k == 2 ==> TopicOk(m0, m)
    ensures Step(At(Upto(m0, m, k), Tail(m, k)), k) == At(Upto(m0, m, k + 1), Tail(m, k + 1))
  {
    hide Step, Upto, Fits, Enc, ValidTopic, TrappedAt, Tail;
    var tail := Tail(m, k + 1);
    NextId(m, k);
    TailStep(m, k);
    assert [] + tail == tail;
    if k == 5 {
      StepProps(m0, m, tail);
    } else if Enc(m, k) == [] {
      StepAbsent(m0, m, k, tail);
    } else {
      StepPresent(m0, m, k, tail);
    }
  }

  /** The k-th property's value is read off these bytes, so many of them. */
  predicate Reads(m: Publish, k: nat, b: Data, n: nat)
    requires k < 8 && k != 5
  {
    match k
    case 0 => ParseByte(b) == Ok(m.format, n)
    case 1 => ParseU32(b) == Ok(m.expiry, n)
    case 2 => ParseU16(b) == Ok(m.alias, n)
    case 3 => ParseLP(b) == Ok(m.response, n)
    case 4 => ParseLP(b) == Ok(m.correlation, n)
    case 6 => LbParse(b) == Ok(m.subId, n)
    case 7 => ParseLP(b) == Ok(m.content, n)
  }

  /** What is written behind an identifier reads back. */
  lemma ReadsBack(m: Publish, k: nat, tail: Data)
    requires Fits(m) && k < 8 && k != 5 && Enc(m, k) != []
    ensures Reads(m, k, Enc(m, k)[1..] + tail, |Enc(m, k)| - 1)
  {
    match k
    case 0 =>
    case 1 => U32RoundTrip(m.expiry, tail);
    case 2 => U16RoundTrip(m.alias, tail);
    case 3 => LPRoundTrip(m.response, tail); assert Enc(m, k)[1..] == LP(m.response);
    case 4 => LPRoundTrip(m.correlation, tail); assert Enc(m, k)[1..] == LP(m.correlation);
    case 6 => LbRoundTrip(m.subId, tail); assert Enc(m, k)[1..] == Varint(m.subId);
    case 7 => LPRoundTrip(m.content, tail); assert Enc(m, k)[1..] == LP(m.content);
  }

  /** Over all the properties, to the payload. */
  lemma {:induction false} StepsOn(m0: Publish, m: Publish, k: nat)
    requires Fits(m) && k <= 8 && m.payload != [] && !Trapped(m) && (TopicOk(m0, m))
    ensures Steps(At(Upto(m0, m, k), Tail(m, k)), k) == At(Upto(m0, m, 8), m.payload)
    decreases 8 - k
  {
    hide Step, Upto, Fits, Enc, ValidTopic, TrappedAt;
    if k == 8 {
      assert Tail(m, 8) == m.payload;
    } else {
      assert !TrappedAt(m, k);
      StepOn(m0, m, k);
      StepsOn(m0, m, k + 1);
    }
  }

  /** No step puts anything back. */
  lemma {:induction false} StepsShrink(c: Cursor, k: nat)
    requires k <= 8
    ensures Steps(c, k).At? ==> c.At? && |Steps(c, k).rest| <= |c.rest|
    decreases 8 - k
  {
    hide Step;
    if k < 8 {
      StepShrinks(c, k);
      StepsShrink(Step(c, k), k + 1);
    }
  }

  lemma StepShrinks(c: Cursor, k: nat)
    requires k < 8
    ensures Step(c, k).At? ==> c.At? && |Step(c, k).rest| <= |c.rest|
  {
    hide Opt, ParseByte, ParseU16, ParseU32, ParseLP, ParseProps, LbParse, ValidTopic;
  }

  lemma {:induction false} StepsFailed(c: Cursor, k: nat)
    requires k <= 8 && c.Failed?
    ensures Steps(c, k) == c
    decreases 8 - k
  {
    if k < 8 { StepsFailed(c, k + 1); }
  }

  /** In a trap the step fails or takes some of the payload. */
  lemma StepOff(m0: Publish, m: Publish, k: nat)
    requires Fits(m) && k < 8 && m.payload != [] && TrappedAt(m, k)
    ensures var c := Step(At(Upto(m0, m, k), Tail(m, k)), k); c.At? ==> |c.rest| < |m.payload|
  {
    hide Tail, Fits, Upto, NoneFrom, Step, Enc;
    TailHead(m, k + 1);
    TailStep(m, k);
    assert [] + m.payload == m.payload;
    if k == 5 {
      OffProps(m0, m);
    } else if Enc(m, k) == [] {
      OffAbsent(m0, m, k);
    } else {
      OffPresent(m0, m, k);
    }
  }

  lemma OffProps(m0: Publish, m: Publish)
    requires Fits(m) && m.payload != [] && m.payload[0] == IDS[5]
    ensures var c := Step(At(Upto(m0, m, 5), Enc(m, 5) + m.payload), 5); c.At? ==> |c.rest| < |m.payload|
  {
    PropsRunOn(m.props, m.payload);
    hide Props, ParseProps, Fits, Upto;
  }

  lemma OffAbsent(m0: Publish, m: Publish, k: nat)
    requires k < 8 && k != 5 && m.payload != [] && m.payload[0] == IDS[k]
    ensures var c := Step(At(Upto(m0, m, k), m.payload), k); c.At? ==> |c.rest| < |m.payload|
  {
    hide ParseByte, ParseU16, ParseU32, ParseLP, LbParse, ValidTopic, Upto;
  }

  lemma OffPresent(m0: Publish, m: Publish, k: nat)
    requires Fits(m) && k < 8 && k != 5 && Enc(m, k) != [] && m.payload != [] && m.payload[0] == IDS[k]
    ensures Step(At(Upto(m0, m, k), Enc(m, k) + m.payload), k).Failed?
  {
    hide U16, U32, LP, Varint, ParseU16, ParseU32, ParseLP, LbParse, ParseByte, ValidTopic, Padded, Fits, Upto;
    PresentReads(m, k, m.payload);
  }

  /** A trap behind the k-th property, or the topic check, keeps the payload from coming out
      whole. */
  lemma {:induction false} StepsOff(m0: Publish, m: Publish, k: nat, t: nat)
    requires Fits(m) && k <= t < 8 && m.payload != [] && TrappedAt(m, t)
    ensures var c := Steps(At(Upto(m0, m, k), Tail(m, k)), k); c.At? ==> |c.rest| < |m.payload|
    decreases 8 - k
  {
    hide Upto, Fits, Enc, ValidTopic, NoneFrom, TrappedAt, Step, Tail;
    var c := At(Upto(m0, m, k), Tail(m, k));
    StepsShrink(Step(c, k), k + 1);
    if TrappedAt(m, k) {
      StepOff(m0, m, k);
    } else if k == 2 && !TopicOk(m0, m) {
      TopicFails(m0, m);
    } else {
      StepOn(m0, m, k);
      StepsOff(m0, m, k + 1, t);
    }
  }

  /** Without an alias the topic is checked. */
  lemma TopicFails(m0: Publish, m: Publish)
    requires Fits(m) && m.payload != [] && !TrappedAt(m, 2) && !TopicOk(m0, m)
    ensures Step(At(Upto(m0, m, 2), Tail(m, 2)), 2) == Failed(Upto(m0, m, 2), false)
  {
    hide ValidTopic, Fits, TrappedAt;
    NextId(m, 2);
    assert Tail(m, 2) == Enc(m, 2) + Tail(m, 3);
    assert [] + Tail(m, 3) == Tail(m, 3);
  }

  lemma {:induction false} StepsTopic(m0: Publish, m: Publish, k: nat)
    requires Fits(m) && k <= 2 && m.payload != [] && !Trapped(m) && !TopicOk(m0, m)
    ensures Steps(At(Upto(m0, m, k), Tail(m, k)), k) == Failed(Upto(m0, m, 2), false)
    decreases 2 - k
  {
    hide Step, Upto, Fits, Enc, ValidTopic, TrappedAt;
    assert !TrappedAt(m, k);
    if k == 2 {
      TopicFails(m0, m);
      StepsFailed(Failed(Upto(m0, m, 2), false), 3);
    } else {
      StepOn(m0, m, k);
      StepsTopic(m0, m, k + 1);
    }
  }

  // ---------- the whole packet ----------

  lemma FirstReadsBack(m: Publish)
    requires m.qos <= 2
    ensures var b := First(m);
      && FirstOk(b, PUBLISH, 0) && b / 2 % 4 == m.qos
      && (b / 8 % 2 == 1 <==> m.dup) && (b % 2 == 1 <==> m.retain)
  {
  }

  /** Up to the properties a written packet is always read as written. */
  lemma DecodeToProps(m0: Publish, m: Publish)
    requires Fits(m) && m.payload != []
    ensures var head := Head(First(m), |Body(m)|); var hn := |Header(First(m), |Body(m)|)|;
      DecodeInto(m0, Wire(m)) == DecodePayload(head, hn, |Body(m)|, Steps(At(Upto(m0, m, 0), Tail(m, 0)), 0))
  {
    hide Steps, Tail, FirstOk, First, Header, ParseHeader, DecodeBody, Body;
    FirstReadsBack(m);
    var body, header := Body(m), Header(First(m), |Body(m)|);
    HeaderRoundTrip(First(m), PUBLISH, 0, body);
    assert Wire(m)[|header|..] == body;
    DecodeBodyToProps(m0, m);
  }

  lemma DecodeBodyToProps(m0: Publish, m: Publish)
    requires Fits(m) && m.payload != []
    ensures var head := Head(First(m), |Body(m)|); var hn := |Header(First(m), |Body(m)|)|;
      DecodeBody(m0, head, hn, Body(m)) == DecodePayload(head, hn, |Body(m)|, Steps(At(Upto(m0, m, 0), Tail(m, 0)), 0))
  {
    FrontReadsBack(m0, m);
    BodySplit(m);
    hide Steps, Encs, First, Header, DecodePayload, DecodeFront, Front, Body, Tail, Upto;
  }

  lemma BodySplit(m: Publish)
    ensures Body(m) == Front(m) + Tail(m, 0) && Body(m)[|Front(m)|..] == Tail(m, 0)
  {
  }

  lemma FrontReadsBack(m0: Publish, m: Publish)
    requires Fits(m)
    ensures DecodeFront(m0, First(m), Front(m) + Tail(m, 0)) == Ok(Upto(m0, m, 0), |Front(m)|)
  {
    UptoStart(m0, m);
    hide Upto, Pid, Encs, First, LP, Varint, Tail, DecodeFront, Front, Body, Fits;
    FrontIntoFields(m0, m, Tail(m, 0));
  }

  lemma UptoStart(m0: Publish, m: Publish)
    ensures Upto(m0, m, 0) == FrontFields(m0, m)
  {
  }

  /** What the front of a written message sets. */
  function FrontFields(m0: Publish, m: Publish): Publish {
    m0.(dup := m.dup, qos := m.qos, retain := m.retain, topic := m.topic, pid := if m.qos != 0 then m.pid else m0.pid)
  }

  lemma FrontIntoFields(m0: Publish, m: Publish, tail: Data)
    requires Fits(m)
    ensures DecodeFront(m0, First(m), Front(m) + tail) == Ok(FrontFields(m0, m), |Front(m)|)
  {
    FrontPieces(m, tail);
    hide Pid, Encs, First, LP, Varint, ParseLP, ParseU16, U16, LbParse, DecodeFront, Front, Body, Fits, FirstOk;
    FrontInPieces(m0, m, LP(m.topic), Pid(m), Varint(|Encs(m, 0)|), tail);
  }

  lemma FrontInPieces(m0: Publish, m: Publish, t: Data, p: Data, len: Data, tail: Data)
    requires Fits(m) && t == LP(m.topic) && p == Pid(m) && len == Varint(|Encs(m, 0)|)
    ensures DecodeFront(m0, First(m), t + (p + (len + tail))) == Ok(FrontFields(m0, m), |t| + |p| + |len|)
  {
    FirstReadsBack(m);
    PiecesReadBack(m, tail);
    hide Pid, Encs, First, LP, Varint, ParseLP, ParseU16, U16, LbParse, DecodeFront, Front, Body, Fits, FirstOk;
    FrontOf(m0, First(m), m.dup, m.qos, m.retain, t, m.topic, p, m.pid, len, tail);
  }

  lemma PiecesReadBack(m: Publish, tail: Data)
    requires Fits(m)
    ensures var p, len := Pid(m), Varint(|Encs(m, 0)|);
      && ParseLP(LP(m.topic) + (p + (len + tail))) == Ok(m.topic, |LP(m.topic)|)
      && (if m.qos != 0 then |p| == 2 && ParseU16(p + (len + tail)) == Ok(m.pid, 2) else p == [])
      && LbParse(len + tail) == Ok(|Encs(m, 0)|, |len|)
  {
    BodyBound(m);
    hide Encs, LP, Varint, ParseLP, LbParse, Body, PropsFit;
    var p, len := Pid(m), Varint(|Encs(m, 0)|);
    LPRoundTrip(m.topic, p + (len + tail));
    U16RoundTrip(m.pid, len + tail);
    LbRoundTrip(|Encs(m, 0)|, tail);
  }

  lemma FrontPieces(m: Publish, tail: Data)
    ensures Front(m) + tail == LP(m.topic) + (Pid(m) + (Varint(|Encs(m, 0)|) + tail))
    ensures |Front(m)| == |LP(m.topic)| + |Pid(m)| + |Varint(|Encs(m, 0)|)|
  {
    hide LP, Pid, Varint, Encs;
  }

  /** A front whose pieces read back one by one. */
  lemma FrontOf(m0: Publish, first: Byte, dup: bool, qos: nat, retain: bool,
                t: Data, topic: Data, p: Data, pid: nat, len: Data, tail: Data)
    requires qos == first / 2 % 4 && dup == (first / 8 % 2 == 1) && retain == (first % 2 == 1)
    requires ParseLP(t + (p + (len + tail))) == Ok(topic, |t|)
    requires if qos != 0 then |p| == 2 && ParseU16(p + (len + tail)) == Ok(pid, 2) else p == []
    requires LbParse(len + tail).Ok? && LbParse(len + tail).n == |len|
    ensures DecodeFront(m0, first, t + (p + (len + tail))) ==
      Ok(m0.(dup := dup, qos := qos, retain := retain, topic := topic, pid := if qos != 0 then pid else m0.pid),
         |t| + |p| + |len|)
  {
  }

  lemma BodyBound(m: Publish)
    requires Fits(m)
    ensures |Encs(m, 0)| <= MAX_REMAINING
  {
  }

  /** A reader tells the fields of a written message apart, and takes every byte, unless the
      payload traps it or there is neither an alias nor a valid topic; then it fails or
      delivers another payload. */
  lemma PublishReceived(m0: Publish, m: Publish)
    requires Fits(m) && Writable(m)
    ensures var r := DecodeInto(m0, Wire(m));
      if !Trapped(m) && (TopicOk(m0, m)) then r == Ok(Received(m0, m), |Wire(m)|)
      else r.Ok? ==> r.value.payload != m.payload
  {
    DecodeToProps(m0, m);
    hide Steps, Encs, Enc, Trapped, TrappedAt, ValidTopic, First, Header, Varint, Fits;
    assert |Body(m)| - |m.payload| >= 0;
    if Trapped(m) {
      HasTrap(m);
      var t :| 0 <= t < 8 && TrappedAt(m, t);
      StepsOff(m0, m, 0, t);
      TrappedPayload(m, Steps(At(Upto(m0, m, 0), Tail(m, 0)), 0));
    } else if !TopicOk(m0, m) {
      StepsTopic(m0, m, 0);
    } else {
      StepsOn(m0, m, 0);
      assert m.payload[..|m.payload|] == m.payload;
      assert Upto(m0, m, 8).(payload := m.payload) == Received(m0, m);
    }
  }

  lemma HasTrap(m: Publish)
    requires Trapped(m)
    ensures exists t :: 0 <= t < 8 && TrappedAt(m, t)
  {
  }

  lemma TrappedPayload(m: Publish, c: Cursor)
    requires m.qos < 4 && (c.At? ==> |c.rest| < |m.payload|)
    ensures var r := DecodePayload(Head(First(m), |Body(m)|), |Header(First(m), |Body(m)|)|, |Body(m)|, c);
      r.Ok? ==> r.value.payload != m.payload
  {
  }

  /** What a caller can see to: which messages a reader that holds m0 gets as they were. Of
      what the message does not carry m0 must have nothing else. */
  predicate RecoversInto(m0: Publish, m: Publish) {
    && (m.qos == 0 ==> m0.pid == m.pid)
    && (m.format == 0 ==> m0.format == 0) && (m.expiry == 0 ==> m0.expiry == 0)
    && (m.alias == 0 ==> m0.alias == 0)
    && (m.response == [] ==> m0.response == []) && (m.correlation == [] ==> m0.correlation == [])
    && (m.content == [] ==> m0.content == [])
    && (!(0 < m.subId < SUB_LIMIT) ==> m0.subId == m.subId)
    && |m.props| % 2 == 0
    && (m.alias != 0 || ValidTopic(m.topic))
    && !Trapped(m)
  }

  /** Decoding into a message that holds m0 recovers every field and every byte exactly for
      these. */
  lemma PublishReuse(m0: Publish, m: Publish)
    requires Fits(m) && Writable(m)
    ensures DecodeInto(m0, Wire(m)) == Ok(m, |Wire(m)|) <==> RecoversInto(m0, m)
  {
    PublishReceived(m0, m);
    hide Trapped, ValidTopic, Steps, Encs, Fits, Header, Wire, DecodeInto;
    SameReceived(m0, m);
  }

  lemma SameReceived(m0: Publish, m: Publish)
    ensures Received(m0, m) == m && TopicOk(m0, m) && !Trapped(m) <==> RecoversInto(m0, m)
  {
    hide Trapped, ValidTopic;
  }

  /** The same for a fresh message. */
  predicate Recovers(m: Publish) {
    && (m.qos == 0 ==> m.pid == 0)
    && |m.props| % 2 == 0
    && m.subId < SUB_LIMIT
    && (m.alias != 0 || ValidTopic(m.topic))
    && !Trapped(m)
  }

  /** Decoding into a fresh message recovers every field and every byte exactly for these. */
  lemma PublishRoundTrip(m: Publish)
    requires Fits(m) && Writable(m)
    ensures DecodeInto(NEW, Wire(m)) == Ok(m, |Wire(m)|) <==> Recovers(m)
  {
    PublishReuse(NEW, m);
    hide Trapped, ValidTopic, DecodeInto, Wire, Fits, Writable;
  }

  /** A message without properties whose payload is the byte 1: it is taken for a payload
      format, and the reader fails or delivers another payload. */
  const TRAP := NEW.(topic := [0x61], payload := [0x01])

  lemma PayloadTaken()
    ensures Fits(TRAP) && Writable(TRAP)
    ensures var r := DecodeInto(NEW, Wire(TRAP)); r.Ok? ==> r.value.payload != TRAP.payload
  {
    assert Encs(TRAP, 8) == [] && Encs(TRAP, 7) == [] && Encs(TRAP, 6) == [] && Encs(TRAP, 5) == [];
    assert Encs(TRAP, 4) == [] && Encs(TRAP, 3) == [] && Encs(TRAP, 2) == [] && Encs(TRAP, 1) == [];
    VarintSize(|Encs(TRAP, 0)|);
    assert Fits(TRAP);
    assert TrappedAt(TRAP, 0);
    hide TrappedAt, DecodeInto, Wire, Fits, Encs;
    PublishReceived(NEW, TRAP);
  }

  /** Where neither the packet nor the message read into has an alias, the topic decides: it
      is refused, without a panic, if it is empty or has a wildcard in it. */
  lemma TopicChecked(m0: Publish, m: Publish)
    requires Fits(m) && m.payload != [] && m.alias == 0 && m0.alias == 0 && !Trapped(m)
    ensures DecodeInto(m0, Wire(m)).Ok? <==>
      m.topic != [] && forall i :: 0 <= i < |m.topic| ==> m.topic[i] != 0x23 && m.topic[i] != 0x2B
    ensures !DecodeInto(m0, Wire(m)).Panics?
  {
    DecodeToProps(m0, m);
    hide Steps, Encs, Enc, Trapped, First, Header, Fits;
    if ValidTopic(m.topic) {
      StepsOn(m0, m, 0);
    } else {
      StepsTopic(m0, m, 0);
    }
  }

  /** An alias or identifier of zero and empty bytes are refused where they are read. */
  lemma EmptyRefused(m: Publish, rest: Data)
    ensures Step(At(m, [0x23, 0x00, 0x00] + rest), 2) == Failed(m.(alias := 0), false)
    ensures Step(At(m, [0x08, 0x00, 0x00] + rest), 3) == Failed(m.(response := []), false)
    ensures Step(At(m, [0x09, 0x00, 0x00] + rest), 4) == Failed(m.(correlation := []), false)
    ensures Step(At(m, [0x0B, 0x00] + rest), 6) == Failed(m.(subId := 0), false)
    ensures Step(At(m, [0x03, 0x00, 0x00] + rest), 7) == Failed(m.(content := []), false)
  {
  }

  /** A set property whose identifier comes again is refused, whatever follows. */
  lemma RepeatRefused(m0: Publish, m: Publish, k: nat, rest: Data)
    requires Fits(m) && k < 8 && k != 5 && Enc(m, k) != []
    ensures Step(At(m0, Enc(m, k) + ([IDS[k]] + rest)), k).Failed?
    ensures !Step(At(m0, Enc(m, k) + ([IDS[k]] + rest)), k).panics
  {
    hide U16, U32, LP, Varint, ParseU16, ParseU32, ParseLP, LbParse, ParseByte, ValidTopic, Fits;
    PresentReads(m, k, [IDS[k]] + rest);
  }

  /** A property whose number is cut short makes the reader panic and leaves the field. */
  lemma NumberCutShort(m: Publish, b: Data)
    ensures Step(At(m, [0x01]), 0) == Failed(m, true)
    ensures |b| < 4 ==> Step(At(m, [0x02] + b), 1) == Failed(m, true)
    ensures |b| < 2 ==> Step(At(m, [0x23] + b), 2) == Failed(m, true)
  {
    assert ([0x02] + b)[1..] == b && ([0x23] + b)[1..] == b;
  }

  /** One whose bytes are cut short by one or two does the same; by more, it is an error and
      empties the field. */
  lemma BytesCutShort(m: Publish, v: Data, j: nat)
    requires |v| <= MAX_LP && 0 < j <= |LP(v)|
    ensures var b, panics := LP(v)[..|LP(v)| - j], j <= 2 && j <= |v|;
      && Step(At(m, [0x08] + b), 3) == Failed(if panics then m else m.(response := []), panics)
      && Step(At(m, [0x09] + b), 4) == Failed(if panics then m else m.(correlation := []), panics)
      && Step(At(m, [0x03] + b), 7) == Failed(if panics then m else m.(content := []), panics)
  {
    CutShort(v, j);
    var b := LP(v)[..|LP(v)| - j];
    assert ([0x08] + b)[1..] == b && ([0x09] + b)[1..] == b && ([0x03] + b)[1..] == b;
    hide LP, ParseLP;
  }

  /** The same of a packet whose topic is cut short. */
  lemma TopicCutShort(m0: Publish, first: Byte, v: Data, j: nat)
    requires |v| <= MAX_LP && 0 < j <= |LP(v)|
    ensures var b, panics := LP(v)[..|LP(v)| - j], j <= 2 && j <= |v|;
      var flagged := m0.(dup := first / 8 % 2 == 1, qos := first / 2 % 4, retain := first % 2 == 1);
      && DecodeFront(m0, first, b) == (if panics then Panics else Bad)
      && LeftByFront(m0, first, b) == if panics then flagged else flagged.(topic := [])
  {
    CutShort(v, j);
    hide LP, ParseLP;
  }

  /** Each step sets one field at most, whether or not it fails. */
  lemma StepSetsOne(m: Publish, rest: Data, k: nat)
    requires k < 8
    ensures var m' := Step(At(m, rest), k).m;
      match k
      case 0 => m' == m.(format := m'.format)
      case 1 => m' == m.(expiry := m'.expiry)
      case 2 => m' == m.(alias := m'.alias)
      case 3 => m' == m.(response := m'.response)
      case 4 => m' == m.(correlation := m'.correlation)
      case 5 => m' == m.(props := m'.props)
      case 6 => m' == m.(subId := m'.subId)
      case 7 => m' == m.(content := m'.content)
  {
    hide Opt, OptLP, ParseByte, ParseU16, ParseU32, ParseLP, ParseProps, LbParse, ValidTopic, Behind, Kept;
  }

  lemma {:induction false} StepsKeepPayload(c: Cursor, k: nat)
    requires k <= 8
    ensures Steps(c, k).m.payload == c.m.payload
    decreases 8 - k
  {
    hide Step;
    if k < 8 {
      if c.At? {
        StepSetsOne(c.m, c.rest, k);
        StepsKeepPayload(Step(c, k), k + 1);
      } else {
        StepsFailed(c, k);
      }
    }
  }

  /** A reading that fails leaves the payload that was there. */
  lemma FailureKeepsPayload(m0: Publish, src: Data)
    requires !DecodeInto(m0, src).Ok?
    ensures LeftBy(m0, src).payload == m0.payload
  {
    hide Steps, ParseHeader, ParseLP, ParseU16, LbParse;
    var head := ParseHeader(src, PUBLISH, 0);
    if head.Ok? {
      var body := src[head.n..];
      var front := DecodeFront(m0, head.value.first, body);
      if front.Ok? {
        StepsKeepPayload(At(front.value, body[front.n..]), 0);
      }
    }
  }

  /** A message with every property, and its bytes. */
  const FULL := Publish(
    true, 1, false, [0x61, 0x2F, 0x62], 10,
    1, 0x01020304, 7, [0x72], [0x63],
    [[0x6B], [0x76]], 200, [0x74], [0x68, 0x69])

  lemma ExampleValues()
    ensures Enc(FULL, 0) == [0x01, 0x01] && Enc(FULL, 1) == [0x02, 0x01, 0x02, 0x03, 0x04]
    ensures Enc(FULL, 2) == [0x23, 0x00, 0x07] && Enc(FULL, 3) == [0x08, 0x00, 0x01, 0x72]
    ensures Enc(FULL, 4) == [0x09, 0x00, 0x01, 0x63]
    ensures Enc(FULL, 5) == [0x26, 0x00, 0x01, 0x6B, 0x00, 0x01, 0x76]
    ensures Enc(FULL, 6) == [0x0B, 0xC8, 0x01] && Enc(FULL, 7) == [0x03, 0x00, 0x01, 0x74]
  {
    assert U32(0x01020304) == [0x01, 0x02, 0x03, 0x04];
    assert FULL.props[..1] == [[0x6B]] && FULL.props[1..] == [[0x76]];
  }

  const FULL_PROPERTIES: Data :=
    [0x01, 0x01] + ([0x02, 0x01, 0x02, 0x03, 0x04] + ([0x23, 0x00, 0x07] + ([0x08, 0x00, 0x01, 0x72] +
    ([0x09, 0x00, 0x01, 0x63] + ([0x26, 0x00, 0x01, 0x6B, 0x00, 0x01, 0x76] + ([0x0B, 0xC8, 0x01] +
    ([0x03, 0x00, 0x01, 0x74] + [])))))))

  lemma ExampleProperties()
    ensures Encs(FULL, 0) == FULL_PROPERTIES && |FULL_PROPERTIES| == 32
  {
    ExampleValues();
    hide Enc;
    assert Encs(FULL, 8) == [];
    assert Encs(FULL, 6) == Enc(FULL, 6) + (Enc(FULL, 7) + Encs(FULL, 8));
    assert Encs(FULL, 4) == Enc(FULL, 4) + (Enc(FULL, 5) + Encs(FULL, 6));
    assert Encs(FULL, 2) == Enc(FULL, 2) + (Enc(FULL, 3) + Encs(FULL, 4));
    assert Encs(FULL, 0) == Enc(FULL, 0) + (Enc(FULL, 1) + Encs(FULL, 2));
  }

  /** Type, flags and length, topic, identifier, length of the properties, those, payload. */
  lemma WireExample()
    ensures Wire(FULL) ==
      [0x3A] + [0x2A] + ([0x00, 0x03] + [0x61, 0x2F, 0x62] + [0x00, 0x0A] + [0x20] + FULL_PROPERTIES + [0x68, 0x69])
  {
    ExampleProperties();
    hide Encs, Enc;
    var properties := Encs(FULL, 0);
    assert |properties| == 32;
    hide FULL_PROPERTIES;
  }
}
