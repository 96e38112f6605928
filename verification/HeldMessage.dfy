/**
  A PublishMessage that is decoded into again: what rinsert of memtopics.go makes of the
  message a node holds. Properties that the new packet does not carry survive in it.
 */
module HeldMessage {
  import opened Options
  import opened Bytes
  import opened Varints
  import opened Fields
  import opened Headers
  import opened PublishSpec

  // ---------- any packet, into any message ----------

  /** Whether a property's identifier comes next. */
  predicate Begins(rest: Data, k: nat)
    requires k < 8
  {
    rest != [] && rest[0] == IDS[k]
  }

  /** The properties read from the k-th on. */
  ghost function CarriedFrom(c: Cursor, k: nat): (ks: set<nat>)
    requires k <= 8
    ensures forall j <- ks :: k <= j < 8
    decreases 8 - k
  {
    if k == 8 then {}
    else (if c.At? && Begins(c.rest, k) then {k} else {}) + CarriedFrom(Step(c, k), k + 1)
  }

  /** The properties a packet carries, as a reader with a fresh message takes them. */
  ghost function Carried(src: Data): set<nat> {
    match ParseHeader(src, PUBLISH, 0)
    case Ok(head, hn) =>
      (match DecodeFront(NEW, head.first, src[hn..])
       case Ok(m1, n) => CarriedFrom(At(m1, src[hn..][n..]), 0)
       case _ => {})
    case _ => {}
  }

  /** The k-th property of a message. */
  datatype Prop = Number(n: nat) | Text(b: Data) | Pairs(l: seq<Data>)

  function PropOf(m: Publish, k: nat): Prop
    requires k < 8
  {
    match k
    case 0 => Number(m.format)
    case 1 => Number(m.expiry)
    case 2 => Number(m.alias)
    case 3 => Text(m.response)
    case 4 => Text(m.correlation)
    case 5 => Pairs(m.props)
    case 6 => Number(m.subId)
    case 7 => Text(m.content)
  }

  /** A message without its properties and its payload. */
  function FrameOf(m: Publish): Publish {
    NEW.(dup := m.dup, qos := m.qos, retain := m.retain, topic := m.topic, pid := m.pid)
  }

  lemma SameMessage(a: Publish, b: Publish)
    requires FrameOf(a) == FrameOf(b) && a.payload == b.payload
    requires forall j :: 0 <= j < 8 ==> PropOf(a, j) == PropOf(b, j)
    ensures a == b
  {
    assert PropOf(a, 0) == PropOf(b, 0) && PropOf(a, 1) == PropOf(b, 1) && PropOf(a, 2) == PropOf(b, 2);
    assert PropOf(a, 3) == PropOf(b, 3) && PropOf(a, 4) == PropOf(b, 4) && PropOf(a, 5) == PropOf(b, 5);
    assert PropOf(a, 6) == PropOf(b, 6) && PropOf(a, 7) == PropOf(b, 7);
  }

  /** After the k-th step on two messages: they agree on what is left, and the second holds
      the first one's property if that was carried and its own if not. */
  ghost predicate Alike(a: Publish, b: Publish, rest: Data, k: nat)
    requires k < 8
  {
    var c, d := Step(At(a, rest), k), Step(At(b, rest), k);
    c.At? ==>
      && d.At? && d.rest == c.rest
      && FrameOf(c.m) == FrameOf(a) && FrameOf(d.m) == FrameOf(b)
      && (forall j :: 0 <= j < 8 && j != k ==> PropOf(c.m, j) == PropOf(a, j) && PropOf(d.m, j) == PropOf(b, j))
      && PropOf(d.m, k) == PropOf(if Begins(rest, k) || k == 5 then c.m else b, k)
  }

  /** m with the k-th property of another message. */
  function WithProp(m: Publish, from: Publish, k: nat): Publish
    requires k < 8
  {
    match k
    case 0 => m.(format := from.format)
    case 1 => m.(expiry := from.expiry)
    case 2 => m.(alias := from.alias)
    case 3 => m.(response := from.response)
    case 4 => m.(correlation := from.correlation)
    case 5 => m.(props := from.props)
    case 6 => m.(subId := from.subId)
    case 7 => m.(content := from.content)
  }

  lemma PropsOfWith(m: Publish, from: Publish, k: nat)
    requires k < 8
    ensures FrameOf(WithProp(m, from, k)) == FrameOf(m) && PropOf(WithProp(m, from, k), k) == PropOf(from, k)
    ensures forall j :: 0 <= j < 8 && j != k ==> PropOf(WithProp(m, from, k), j) == PropOf(m, j)
  {
  }

  /** Each of two messages after the k-th step is itself with a property from the first. */
  ghost predicate Stepped(a: Publish, b: Publish, rest: Data, k: nat)
    requires k < 8
  {
    var c, d := Step(At(a, rest), k), Step(At(b, rest), k);
    c.At? ==>
      && d.At? && d.rest == c.rest && c.m == WithProp(a, c.m, k)
      && d.m == if Begins(rest, k) || k == 5 then WithProp(b, c.m, k) else b
  }

  lemma NumberStepped(a: Publish, b: Publish, rest: Data, k: nat)
    requires k in {0, 1, 6}
    ensures Stepped(a, b, rest, k)
  {
    hide ParseByte, ParseU32, LbParse, Behind;
  }

  lemma AliasStepped(a: Publish, b: Publish, rest: Data)
    requires a.topic == b.topic && a.alias == 0
    ensures Stepped(a, b, rest, 2)
  {
    hide ParseU16, ValidTopic, Behind;
  }

  lemma BytesStepped(a: Publish, b: Publish, rest: Data, k: nat)
    requires k in {3, 4, 7}
    ensures Stepped(a, b, rest, k)
  {
    hide ParseLP, Behind;
  }

  lemma PropsStepped(a: Publish, b: Publish, rest: Data)
    ensures Stepped(a, b, rest, 5)
  {
    hide ParseProps, Behind;
  }

  lemma StepAlike(a: Publish, b: Publish, rest: Data, k: nat)
    requires k < 8 && a.topic == b.topic && (k == 2 ==> a.alias == 0)
    ensures Alike(a, b, rest, k)
  {
    hide Step, PropOf, FrameOf, WithProp;
    PropsOfWith(a, Step(At(a, rest), k).m, k);
    PropsOfWith(b, Step(At(a, rest), k).m, k);
    match k
    case 0 | 1 | 6 => NumberStepped(a, b, rest, k);
    case 2 => AliasStepped(a, b, rest);
    case 3 | 4 | 7 => BytesStepped(a, b, rest, k);
    case 5 => PropsStepped(a, b, rest);
  }

  lemma Projections(a: Publish, b: Publish)
    ensures FrameOf(a) == FrameOf(b) ==> a.topic == b.topic
    ensures PropOf(a, 2) == PropOf(b, 2) ==> a.alias == b.alias
  {
  }

  /** The steps on one message are those on another, which takes what is carried and keeps
      the rest. */
  lemma {:induction false} StepsAlike(a: Publish, b: Publish, rest: Data, k: nat)
    requires k <= 8 && Steps(At(a, rest), k).At? && a.topic == b.topic && (k <= 2 ==> a.alias == 0)
    ensures var c, d := Steps(At(a, rest), k), Steps(At(b, rest), k); var ks := CarriedFrom(At(a, rest), k);
      && d.At? && d.rest == c.rest
      && FrameOf(c.m) == FrameOf(a) && FrameOf(d.m) == FrameOf(b)
      && (forall j :: 0 <= j < k && j < 8 ==> PropOf(c.m, j) == PropOf(a, j) && PropOf(d.m, j) == PropOf(b, j))
      && (forall j :: k <= j < 8 ==> PropOf(d.m, j) == PropOf(if j in ks || j == 5 then c.m else b, j))
    decreases 8 - k
  {
    hide Step, PropOf, FrameOf, Begins;
    if k < 8 {
      var c, d := Step(At(a, rest), k), Step(At(b, rest), k);
      if c.Failed? {
        StepsFailed(c, k + 1);
      }
      StepAlike(a, b, rest, k);
      Projections(a, c.m);
      Projections(b, d.m);
      StepsAlike(c.m, d.m, c.rest, k + 1);
      CarriedStep(a, rest, k);
    }
  }

  lemma CarriedStep(a: Publish, rest: Data, k: nat)
    requires k < 8
    ensures var c := At(a, rest);
      CarriedFrom(c, k) == (if Begins(rest, k) then {k} else {}) + CarriedFrom(Step(c, k), k + 1)
  {
    hide Step, Begins;
  }

  /** What a message that held h becomes when a packet that carries these properties and reads
      as v is decoded into it. User properties are always taken. */
  function Over(h: Publish, v: Publish, carried: set<nat>): Publish {
    v.(pid := if v.qos == 0 then h.pid else v.pid,
       format := if 0 in carried then v.format else h.format,
       expiry := if 1 in carried then v.expiry else h.expiry,
       alias := if 2 in carried then v.alias else h.alias,
       response := if 3 in carried then v.response else h.response,
       correlation := if 4 in carried then v.correlation else h.correlation,
       subId := if 6 in carried then v.subId else h.subId,
       content := if 7 in carried then v.content else h.content)
  }

  lemma OverProps(h: Publish, v: Publish, carried: set<nat>)
    ensures forall j :: 0 <= j < 8 ==>
      PropOf(Over(h, v, carried), j) == PropOf(if j in carried || j == 5 then v else h, j)
    ensures FrameOf(Over(h, v, carried)) == OverFrame(h, v) && Over(h, v, carried).payload == v.payload
  {
  }

  /** The fronts of two readings of one packet. */
  lemma FrontOver(h: Publish, first: Byte, body: Data)
    requires DecodeFront(NEW, first, body).Ok?
    ensures var front, over := DecodeFront(NEW, first, body), DecodeFront(h, first, body); var a := front.value;
      && over == Ok(h.(dup := a.dup, qos := a.qos, retain := a.retain, topic := a.topic,
                       pid := if a.qos == 0 then h.pid else a.pid), front.n)
      && a == NEW.(dup := a.dup, qos := a.qos, retain := a.retain, topic := a.topic, pid := a.pid)
  {
    hide ParseLP, ParseU16, LbParse;
  }

  lemma FramesOver(h: Publish, a: Publish, b: Publish)
    requires b == h.(dup := a.dup, qos := a.qos, retain := a.retain, topic := a.topic,
                     pid := if a.qos == 0 then h.pid else a.pid)
    requires a == NEW.(dup := a.dup, qos := a.qos, retain := a.retain, topic := a.topic, pid := a.pid)
    ensures a.topic == b.topic && a.alias == 0
    ensures forall j :: 0 <= j < 8 ==> PropOf(b, j) == PropOf(h, j) && PropOf(a, j) == PropOf(NEW, j)
    ensures FrameOf(b) == OverFrame(h, a)
  {
  }

  /** The frame of a message decoded over another. */
  function OverFrame(h: Publish, v: Publish): Publish {
    FrameOf(v).(pid := if v.qos == 0 then h.pid else v.pid)
  }

  lemma SameOverFrame(h: Publish, v: Publish, a: Publish)
    requires FrameOf(v) == FrameOf(a)
    ensures OverFrame(h, v) == OverFrame(h, a)
  {
  }

  lemma PayloadAside(m: Publish, p: Data)
    ensures FrameOf(m.(payload := p)) == FrameOf(m) && m.(payload := p).payload == p
    ensures forall j :: 0 <= j < 8 ==> PropOf(m.(payload := p), j) == PropOf(m, j)
  {
  }

  /** Nothing of these two readings is told apart but by what is carried. */
  lemma OverIsAll(h: Publish, v: Publish, w: Publish, carried: set<nat>)
    requires FrameOf(w) == OverFrame(h, v) && w.payload == v.payload
    requires forall j :: 0 <= j < 8 ==> PropOf(w, j) == PropOf(if j in carried || j == 5 then v else h, j)
    ensures w == Over(h, v, carried)
  {
    OverProps(h, v, carried);
    SameMessage(w, Over(h, v, carried));
  }

  /** A packet that a fresh message reads as v makes of a message that holds h the same with
      the properties it does not carry, which in a fresh one stay unset, left as they were. */
  lemma DecodeOver(h: Publish, src: Data)
    requires DecodeInto(NEW, src).Ok?
    ensures var anew := DecodeInto(NEW, src);
      && DecodeInto(h, src) == Ok(Over(h, anew.value, Carried(src)), anew.n)
      && forall j :: 0 <= j < 8 && j != 5 && j !in Carried(src) ==> PropOf(anew.value, j) == PropOf(NEW, j)
  {
    hide DecodeFront, Steps, Over, OverFrame, PropOf, FrameOf, CarriedFrom, ParseHeader;
    var Ok(head, hn) := ParseHeader(src, PUBLISH, 0);
    var body := src[hn..];
    FrontOver(h, head.first, body);
    var a, b := DecodeFront(NEW, head.first, body).value, DecodeFront(h, head.first, body).value;
    var rest := body[DecodeFront(NEW, head.first, body).n..];
    StepsOver(h, a, b, rest);
    var c, d := Steps(At(a, rest), 0), Steps(At(b, rest), 0);
    var v, w := DecodeInto(NEW, src).value, DecodeInto(h, src).value;
    PayloadAside(c.m, v.payload);
    PayloadAside(d.m, v.payload);
    SameOverFrame(h, v, c.m);
    OverIsAll(h, v, w, Carried(src));
  }

  lemma StepsOver(h: Publish, a: Publish, b: Publish, rest: Data)
    requires b == h.(dup := a.dup, qos := a.qos, retain := a.retain, topic := a.topic,
                     pid := if a.qos == 0 then h.pid else a.pid)
    requires a == NEW.(dup := a.dup, qos := a.qos, retain := a.retain, topic := a.topic, pid := a.pid)
    requires Steps(At(a, rest), 0).At?
    ensures var c, d := Steps(At(a, rest), 0), Steps(At(b, rest), 0); var carried := CarriedFrom(At(a, rest), 0);
      && d.At? && d.rest == c.rest && FrameOf(d.m) == OverFrame(h, c.m)
      && (forall j :: 0 <= j < 8 ==> PropOf(d.m, j) == PropOf(if j in carried || j == 5 then c.m else h, j))
      && (forall j :: 0 <= j < 8 && j != 5 && j !in carried ==> PropOf(c.m, j) == PropOf(NEW, j))
  {
    FramesOver(h, a, b);
    hide Steps, PropOf, FrameOf, OverFrame, CarriedFrom;
    StepsAlike(a, b, rest, 0);
    StepsAlike(a, a, rest, 0);
    SameOverFrame(h, a, Steps(At(a, rest), 0).m);
  }

  /** What a caller can see before storing: a held message has nothing that the packet does
      not carry. */
  predicate NothingElse(h: Publish, v: Publish, carried: set<nat>) {
    && (v.qos == 0 ==> h.pid == v.pid)
    && forall j :: 0 <= j < 8 && j != 5 && j !in carried ==> PropOf(h, j) == PropOf(NEW, j)
  }

  /** A held message becomes the one a fresh message reads exactly when it has nothing else. */
  lemma OverIsFresh(h: Publish, src: Data)
    requires DecodeInto(NEW, src).Ok?
    ensures DecodeInto(h, src) == DecodeInto(NEW, src) <==> NothingElse(h, DecodeInto(NEW, src).value, Carried(src))
  {
    hide DecodeInto, Carried, PropOf, FrameOf, Over, OverFrame;
    DecodeOver(h, src);
    var v, carried := DecodeInto(NEW, src).value, Carried(src);
    OverProps(h, v, carried);
    SamePid(h, v);
    if NothingElse(h, v, carried) {
      OverIsAll(h, v, v, carried);
    }
  }

  lemma SamePid(h: Publish, v: Publish)
    ensures FrameOf(v) == OverFrame(h, v) <==> (v.qos == 0 ==> h.pid == v.pid)
  {
  }

  // ---------- message objects ----------

  /** A message: its fields, whether they have changed since it was decoded, and the bytes it
      was decoded from. */
  datatype Message = Message(pub: Publish, dirty: bool, dbuf: Data)

  /** NewPublishMessage. */
  const FRESH := Message(NEW, true, [])

  /** A message that can be handed over for storing: within its limits if it has to be
      encoded, else once decoded. */
  predicate Ready(m: Message) {
    if m.dirty then Fits(m.pub) else ParseHeader(m.dbuf, PUBLISH, 0).Ok?
  }

  /** The bytes Encode writes: those it was decoded from as long as nothing was changed. */
  function Encoding(m: Message): Option<Data> {
    if !m.dirty then Some(m.dbuf)
    else if Fits(m.pub) && Writable(m.pub) then Some(Wire(m.pub))
    else None
  }

  datatype Outcome = Done | Refused | Panicked

  /** The object that a node's message becomes, a new one where there is none: the bytes are
      decoded into it, as far as that goes. */
  function Reuse(held: Option<Message>, enc: Data): Message {
    var was := held.GetOr(FRESH);
    match DecodeInto(was.pub, enc)
    case Ok(pub, _) => Message(pub, false, enc)
    case _ => Message(LeftBy(was.pub, enc), was.dirty, enc)
  }

  /** A node's message after storing one. */
  function Renew(held: Option<Message>, msg: Message): Option<Message> {
    match Encoding(msg)
    case None => held
    case Some(enc) => Some(Reuse(held, enc))
  }

  /** How storing ends. */
  function RenewOutcome(held: Option<Message>, msg: Message): Outcome {
    match Encoding(msg)
    case None => Refused
    case Some(enc) =>
      match DecodeInto(held.GetOr(FRESH).pub, enc)
      case Ok(_, _) => Done
      case Bad => Refused
      case Panics => Panicked
  }

  /** The node holds the message stored. */
  predicate HoldsAs(held: Option<Message>, msg: Message) {
    RenewOutcome(held, msg) == Done && Renew(held, msg) == Some(Message(msg.pub, false, Encoding(msg).value))
  }

  /** A store whose bytes cannot be read leaves the message with those bytes and the payload
      that it had. */
  lemma FailedStoreLeaves(held: Option<Message>, msg: Message)
    requires Encoding(msg).Some? && RenewOutcome(held, msg) != Done
    ensures var was, left := held.GetOr(FRESH), Renew(held, msg);
      && left.Some? && left.value.dbuf == Encoding(msg).value
      && left.value.pub.payload == was.pub.payload && left.value.dirty == was.dirty
  {
    hide DecodeInto, LeftBy, Encoding;
    FailureKeepsPayload(held.GetOr(FRESH).pub, Encoding(msg).value);
  }

  /** A message as its reader left it. */
  predicate AsReceived(m: Message) {
    !m.dirty && DecodeInto(NEW, m.dbuf).Ok? && m.pub == DecodeInto(NEW, m.dbuf).value
  }

  /** A received message is held as it is exactly when the message held before has nothing
      that it does not carry. */
  lemma ReceivedIsHeld(held: Option<Message>, msg: Message)
    requires AsReceived(msg)
    ensures HoldsAs(held, msg) <==> NothingElse(held.GetOr(FRESH).pub, msg.pub, Carried(msg.dbuf))
  {
    hide DecodeInto, Carried, NothingElse;
    OverIsFresh(held.GetOr(FRESH).pub, msg.dbuf);
    DecodeOver(held.GetOr(FRESH).pub, msg.dbuf);
  }

  /** A changed message is held as it is exactly when a reader with the fields of the message
      held before recovers it. */
  lemma ChangedIsHeld(held: Option<Message>, msg: Message)
    requires msg.dirty && Fits(msg.pub) && Writable(msg.pub)
    ensures HoldsAs(held, msg) <==> RecoversInto(held.GetOr(FRESH).pub, msg.pub)
  {
    hide DecodeInto, Wire, Fits, Writable, RecoversInto;
    PublishReuse(held.GetOr(FRESH).pub, msg.pub);
    if HoldsAs(held, msg) {
      WholeOrOther(held.GetOr(FRESH).pub, msg.pub);
    }
  }

  lemma WholeOrOther(m0: Publish, m: Publish)
    requires Fits(m) && Writable(m)
    ensures var r := DecodeInto(m0, Wire(m)); r.Ok? && r.value == m ==> r.n == |Wire(m)|
  {
    hide Trapped, TopicOk, Received, DecodeInto, Wire, Fits;
    PublishReceived(m0, m);
  }

  /** What its caller can see of a message to be stored: as its reader left it, or changed,
      within its limits and not refused. */
  predicate Storable(m: Message) {
    if m.dirty then Fits(m.pub) && Writable(m.pub) else AsReceived(m)
  }

  /** What a caller can see of a message held before and one to be stored: the held one has
      nothing that the new one, as it will be encoded, does not carry. */
  ghost predicate Kept(held: Option<Message>, msg: Message) {
    var was := held.GetOr(FRESH).pub;
    if msg.dirty then RecoversInto(was, msg.pub) else NothingElse(was, msg.pub, Carried(msg.dbuf))
  }

  lemma KeptIsHeld(held: Option<Message>, msg: Message)
    requires Storable(msg)
    ensures HoldsAs(held, msg) <==> Kept(held, msg)
  {
    hide HoldsAs, NothingElse, RecoversInto, Carried, AsReceived, Fits, Writable;
    if msg.dirty {
      ChangedIsHeld(held, msg);
    } else {
      ReceivedIsHeld(held, msg);
    }
  }

  // ---------- what subscribers get ----------

  /** SetQoS, which processSubscribe calls on the held message to lower its QoS to the one
      granted before a delivery, and to set it back after every delivery. */
  function WithQos(m: Message, qos: nat): Message {
    Message(m.pub.(qos := qos), true, m.dbuf)
  }

  /** The held message as it is sent to a subscriber with this granted QoS, and as it is
      left. */
  function Sent(m: Message, granted: nat): Message {
    if m.pub.qos > granted then WithQos(m, granted) else m
  }

  function LeftAfter(m: Message, granted: nat): Message {
    WithQos(Sent(m, granted), m.pub.qos)
  }

  /** The first delivery of a held message sends the bytes stored only if its QoS is not above
      the one granted; lowered, it already encodes the fields held, and so does every later
      one. */
  lemma DeliveredAs(held: Option<Message>, msg: Message, granted: nat, later: nat)
    requires Encoding(msg).Some? && RenewOutcome(held, msg) == Done
    ensures var m := Reuse(held, Encoding(msg).value); var n := LeftAfter(m, granted);
      && n.pub == m.pub
      && (m.pub.qos <= granted ==> Encoding(Sent(m, granted)) == Encoding(msg))
      && (m.pub.qos > granted ==> Encoding(Sent(m, granted)) == Encoding(Message(m.pub.(qos := granted), true, [])))
      && Encoding(Sent(n, later)) ==
           Encoding(Message(m.pub.(qos := if m.pub.qos > later then later else m.pub.qos), true, []))
  {
    hide DecodeInto, Wire, Fits, Writable;
  }

  /** A first delivery that sends the bytes stored and a later one that encodes the fields
      held read the same exactly when the message held before had nothing else than what the
      bytes carry. */
  lemma DeliveriesAgree(held: Option<Message>, msg: Message)
    requires Encoding(msg).Some? && DecodeInto(NEW, Encoding(msg).value).Ok?
    requires var m := Reuse(held, Encoding(msg).value).pub; Fits(m) && Writable(m) && Recovers(m)
    ensures var enc := Encoding(msg).value; var again := Encoding(WithQos(Reuse(held, enc), Reuse(held, enc).pub.qos));
      && RenewOutcome(held, msg) == Done && again.Some? && DecodeInto(NEW, again.value).Ok?
      && (DecodeInto(NEW, again.value).value == DecodeInto(NEW, enc).value <==>
          NothingElse(held.GetOr(FRESH).pub, DecodeInto(NEW, enc).value, Carried(enc)))
  {
    var was, enc := held.GetOr(FRESH).pub, Encoding(msg).value;
    hide DecodeInto, Wire, Fits, Writable, Recovers, Carried, NothingElse, Over;
    PublishRoundTrip(Reuse(held, enc).pub);
    DecodeOver(was, enc);
    OverIsFresh(was, enc);
  }

  /** Two messages for topic "a", the second without the payload format of the first. */
  const ONE := NEW.(topic := [0x61], format := 1, payload := [0x78])
  const TWO := ONE.(format := 0)

  lemma OneAndTwoFit()
    ensures Fits(ONE) && Writable(ONE) && Recovers(ONE)
    ensures Fits(TWO) && Writable(TWO) && Recovers(TWO)
  {
    forall m | m == ONE || m == TWO ensures |Body(m)| < 100 && Fits(m) {
      ShortBody(m);
    }
    assert forall m, k :: (m == ONE || m == TWO) && 0 <= k < 8 ==> !TrappedAt(m, k) by { hide NoneFrom; }
    hide TrappedAt;
  }

  lemma ShortBody(m: Publish)
    requires m == ONE || m == TWO
    ensures |Body(m)| < 100
  {
    assert |Encs(m, 0)| <= 2 by {
      assert Encs(m, 8) == [] && Encs(m, 7) == [] && Encs(m, 6) == [] && Encs(m, 5) == [];
      assert Encs(m, 4) == [] && Encs(m, 3) == [] && Encs(m, 2) == [] && Encs(m, 1) == [];
    }
    VarintSize(|Encs(m, 0)|);
  }

  /** Stored one after the other for the same topic they leave the first one's format in the
      second, and the second delivery sends it. */
  lemma StaleFormatDelivered()
    ensures var one, two := Message(ONE, true, []), Message(TWO, true, []); var held := Renew(None, one);
      && RenewOutcome(None, one) == RenewOutcome(held, two) == Done
      && held == Some(Message(ONE, false, Wire(ONE)))
      && Renew(held, two) == Some(Message(ONE, false, Wire(TWO)))
      && Encoding(WithQos(Renew(held, two).value, 0)) == Some(Wire(ONE))
      && DecodeInto(NEW, Wire(TWO)) == Ok(TWO, |Wire(TWO)|) && DecodeInto(NEW, Wire(ONE)) == Ok(ONE, |Wire(ONE)|)
  {
    hide Fits, Writable, Recovers, DecodeInto, Wire, Trapped;
    OneAndTwoFit();
    PublishRoundTrip(ONE);
    PublishRoundTrip(TWO);
    PublishReceived(ONE, TWO);
    NotTrapped();
  }

  lemma NotTrapped()
    ensures !Trapped(TWO) && TopicOk(ONE, TWO) && Received(ONE, TWO) == ONE
  {
    hide Fits, Writable;
    OneAndTwoFit();
  }
}
