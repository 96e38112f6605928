/**
  From writer to reader: messages written by the codec, sent through the byte ring in any
  chunks, cut out again by the processor and decoded.
 */
module MessageStream {
  import opened Bytes
  import opened Varints
  import opened Headers
  import opened Framing
  import opened Pipeline
  import opened Ring
  import PublishSpec
  import SubscribeSpec

  datatype Message = Pub(p: PublishSpec.Publish) | Sub(s: SubscribeSpec.Subscribe)

  /** A message within its limits that its writer accepts. */
  predicate Sendable(m: Message) {
    match m
    case Pub(p) => PublishSpec.Fits(p) && PublishSpec.Writable(p)
    case Sub(s) => SubscribeSpec.Fits(s)
  }

  predicate Recovers(m: Message) {
    match m
    case Pub(p) => PublishSpec.Recovers(p)
    case Sub(s) => SubscribeSpec.Recovers(s)
  }

  function Wire(m: Message): Data
    requires Sendable(m)
  {
    match m
    case Pub(p) => PublishSpec.Wire(p)
    case Sub(s) => SubscribeSpec.Wire(s)
  }

  /** The reader takes the type from the first byte and decodes into a fresh message. */
  function Decode(b: Data): Parsed<Message> {
    if b == [] then Panics
    else if b[0] / 16 == PUBLISH then
      match PublishSpec.DecodeInto(PublishSpec.NEW, b)
      case Bad => Bad
      case Panics => Panics
      case Ok(p, n) => Ok(Pub(p), n)
    else if b[0] / 16 == SUBSCRIBE then
      match SubscribeSpec.DecodeInto(SubscribeSpec.NEW, b)
      case Bad => Bad
      case Panics => Panics
      case Ok(s, n) => Ok(Sub(s), n)
    else Bad
  }

  lemma HeadedIsFramed(first: Byte, body: Data)
    requires |body| <= MAX_REMAINING
    ensures Framed(Header(first, |body|) + body)
  {
    var len := Varint(|body|);
    var p, cnt := Header(first, |body|) + body, 1 + |len|;
    VarintSize(|body|);
    Continues(|body|);
    UvarintOfVarint(|body|);
    assert p[1..cnt] == len;
    assert forall j :: 1 <= j < cnt ==> p[j] == len[j - 1];
    assert FramedAt(p, cnt);
  }

  /** What the codec writes is a framed packet. */
  lemma WireIsFramed(m: Message)
    requires Sendable(m)
    ensures Framed(Wire(m))
  {
    match m
    case Pub(p) => HeadedIsFramed(PublishSpec.First(p), PublishSpec.Body(p));
    case Sub(s) => HeadedIsFramed(SubscribeSpec.FIRST, SubscribeSpec.Body(s));
  }

  /** A message is decoded as itself exactly when its codec recovers it. */
  lemma DecodeRecovers(m: Message)
    requires Sendable(m)
    ensures Decode(Wire(m)) == Ok(m, |Wire(m)|) <==> Recovers(m)
  {
    match m
    case Pub(p) =>
      PublishSpec.PublishRoundTrip(p);
      assert Wire(m)[0] == PublishSpec.First(p);
    case Sub(s) =>
      SubscribeSpec.SubscribeRoundTrip(s);
      assert Wire(m)[0] == SubscribeSpec.FIRST;
  }

  function Wires(ms: seq<Message>): seq<Data>
    requires forall i :: 0 <= i < |ms| ==> Sendable(ms[i])
  {
    seq(|ms|, i requires 0 <= i < |ms| => Wire(ms[i]))
  }

  /** In every interleaving of a receiver that publishes these messages' bytes in whatever
      chunks with the processor, each packet the processor has extracted is one of the
      messages, in order, and decodes as itself. */
  lemma MessagesArrive(buf: Data, acts: seq<PAct>, ms: seq<Message>)
    requires |buf| > 5 && PLegal(Start(buf), acts)
    requires forall i :: 0 <= i < |ms| ==> Sendable(ms[i]) && Recovers(ms[i])
    requires PRun(Start(buf), acts).ring.stream <= Concat(Wires(ms))
    ensures var got := PRun(Start(buf), acts).packets;
      && |got| <= |ms|
      && (PRun(Start(buf), acts).proc.Stopped? ==> |got| < |ms| && |Wire(ms[|got|])| > |buf|)
      && forall i :: 0 <= i < |got| ==> got[i] == Wire(ms[i]) && Decode(got[i]) == Ok(ms[i], |got[i]|)
  {
    hide Sendable, Recovers, Wire, Decode, Framed, PInv;
    var sent := Wires(ms);
    PRunKeeps(Start(buf), acts);
    forall i | 0 <= i < |sent| ensures Framed(sent[i]) { WireIsFramed(ms[i]); }
    Reframing(buf, acts, sent);
    var got := PRun(Start(buf), acts).packets;
    forall i | 0 <= i < |got| ensures got[i] == Wire(ms[i]) && Decode(got[i]) == Ok(ms[i], |got[i]|) {
      assert got[i] == sent[i];
      DecodeRecovers(ms[i]);
    }
  }
}
