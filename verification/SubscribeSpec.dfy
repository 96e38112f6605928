/**
  The SUBSCRIBE packet of section 3.8 of MQTT Version 5.0 as subscribe.go writes and reads
  it. As with PUBLISH the property length is read and then ignored, so that a first topic of
  a certain length is taken for a property.
 */
module SubscribeSpec {
  import opened Bytes
  import opened Varints
  import opened Fields
  import opened Headers

  /** A topic filter and its options. */
  datatype Entry = Entry(topic: Data, qos: nat, noLocal: bool, retainAsPub: bool, handling: nat)

  datatype Subscribe = Subscribe(pid: nat, subId: nat, props: seq<Data>, entries: seq<Entry>)

  const NEW := Subscribe(0, 0, [], [])

  const FIRST: Byte := 0x82
  const FLAGS := 2
  const SUB_ID: Byte := 0x0B

  predicate EntryOk(e: Entry) {
    |e.topic| <= MAX_LP && e.qos <= 2 && e.handling <= 2
  }

  function Options(e: Entry): Byte
    requires EntryOk(e)
  {
    e.qos + (if e.noLocal then 4 else 0) + (if e.retainAsPub then 8 else 0) + 16 * e.handling
  }

  predicate EntriesOk(entries: seq<Entry>) {
    forall i :: 0 <= i < |entries| ==> EntryOk(entries[i])
  }

  function EntriesWire(entries: seq<Entry>): Data
    requires EntriesOk(entries)
  {
    if entries == [] then []
    else
      var n := |entries| - 1;
      EntriesWire(entries[..n]) + (LP(entries[n].topic) + [Options(entries[n])])
  }

  function IdEnc(m: Subscribe): Data {
    if 0 < m.subId <= MAX_REMAINING then [SUB_ID] + Varint(m.subId) else []
  }

  function Properties(m: Subscribe): Data {
    IdEnc(m) + Props(m.props)
  }

  function Front(m: Subscribe): (b: Data)
    ensures |b| > 2
  {
    U16(m.pid) + Varint(|Properties(m)|)
  }

  function Body(m: Subscribe): (b: Data)
    requires EntriesOk(m.entries)
    ensures |b| > 2
  {
    Front(m) + Properties(m) + EntriesWire(m.entries)
  }

  function Wire(m: Subscribe): Data
    requires EntriesOk(m.entries)
  {
    Header(FIRST, |Body(m)|) + Body(m)
  }

  predicate Fits(m: Subscribe) {
    && 0 < m.pid < 65536 && m.subId < 0x1_0000_0000
    && PropsFit(m.props) && EntriesOk(m.entries) && |Body(m)| <= MAX_REMAINING
  }

  // ---------- reading ----------

  /** The loop over the filters while it believes bytes of the packet are left. */
  function ParseEntries(b: Data, remlen: int): (r: Parsed<seq<Entry>>)
    ensures r.Ok? ==> r.n <= |b|
    decreases |b|
  {
    if remlen <= 0 then Ok([], 0)
    else
      match ParseEntry(b)
      case Bad => Bad
      case Panics => Panics
      case Ok(e, n) =>
        match ParseEntries(b[n..], remlen - n)
        case Bad => Bad
        case Panics => Panics
        case Ok(more, k) => Ok([e] + more, n + k)
  }

  function ParseEntry(b: Data): (r: Parsed<Entry>)
    ensures r.Ok? ==> 0 < r.n <= |b| && EntryOk(r.value)
  {
    match ParseLP(b)
    case Bad => Bad
    case Panics => Panics
    case Ok(topic, n) =>
      if |b| <= n then Panics
      else
        var o := b[n];
        if o % 4 == 3 || o / 16 % 4 == 3 || o / 64 != 0 then Bad
        else Ok(Entry(topic, o % 4, o / 4 % 2 == 1, o / 8 % 2 == 1, o / 16 % 4), n + 1)
  }

  /** The subscription identifier; the byte behind it is looked at without a check that it
      is there. */
  function ParseId(b: Data, absent: nat): (r: Parsed<nat>)
    ensures r.Ok? ==> r.n <= |b|
  {
    if b == [] || b[0] != SUB_ID then Ok(absent, 0)
    else
      match LbParse(b[1..])
      case Bad => Bad
      case Panics => Panics
      case Ok(v, n) =>
        if v == 0 then Bad
        else if |b| <= 1 + n then Panics
        else if b[1 + n] == SUB_ID then Bad
        else Ok(v, 1 + n)
  }

  /** Decode into a message that holds m0; filters are added to those it has. */
  function DecodeInto(m0: Subscribe, src: Data): Parsed<Subscribe> {
    match ParseHeader(src, SUBSCRIBE, FLAGS)
    case Bad => Bad
    case Panics => Panics
    case Ok(head, hn) => DecodeBody(m0, head.remlen, hn, src[hn..])
  }

  function DecodeBody(m0: Subscribe, remlen: nat, hn: nat, body: Data): Parsed<Subscribe> {
    match DecodeFront(m0, body)
    case Bad => Bad
    case Panics => Panics
    case Ok(m1, n) =>
      match DecodeProperties(m1, body[n..])
      case Bad => Bad
      case Panics => Panics
      case Ok(m2, k) => DecodeEntries(m2, remlen - n - k, hn + n + k, body[n + k..])
  }

  function DecodeFront(m0: Subscribe, body: Data): (r: Parsed<Subscribe>)
    ensures r.Ok? ==> r.n <= |body|
  {
    if |body| < 2 then Panics
    else
      match LbParse(body[2..])
      case Bad => Bad
      case Panics => Panics
      case Ok(len, n) => if len > |body| - 2 - n then Bad else Ok(m0.(pid := ParseU16(body).value), 2 + n)
  }

  function DecodeProperties(m1: Subscribe, b: Data): (r: Parsed<Subscribe>)
    ensures r.Ok? ==> r.n <= |b|
  {
    match ParseId(b, m1.subId)
    case Bad => Bad
    case Panics => Panics
    case Ok(id, n) =>
      match ParseProps(b[n..])
      case Bad => Bad
      case Panics => Panics
      case Ok(props, k) => Ok(m1.(subId := id, props := props), n + k)
  }

  function DecodeEntries(m2: Subscribe, remlen: int, sofar: nat, b: Data): Parsed<Subscribe> {
    match ParseEntries(b, remlen)
    case Bad => Bad
    case Panics => Panics
    case Ok(entries, n) =>
      if m2.entries + entries == [] then Bad else Ok(m2.(entries := m2.entries + entries), sofar + n)
  }

  // ---------- which messages come back ----------

  /** What a reader makes of the written message if it tells the fields apart. */
  function Sent(m: Subscribe): Subscribe {
    m.(props := Padded(m.props), subId := if m.subId <= MAX_REMAINING then m.subId else 0)
  }

  /** The first topic's length begins with the identifier of a user property, or of a
      subscription identifier with no user property in between. */
  predicate Trapped(m: Subscribe)
    requires m.entries != []
  {
    var hi := |m.entries[0].topic| / 256;
    hi == USER_PROPERTY as int || (hi == SUB_ID as int && m.props == [])
  }

  /** What a caller can see to: which messages come back as they were. */
  predicate Recovers(m: Subscribe) {
    m.subId <= MAX_REMAINING && |m.props| % 2 == 0 && m.entries != [] && !Trapped(m)
  }

  lemma OptionsReadBack(e: Entry)
    requires EntryOk(e)
    ensures var o := Options(e);
      && o % 4 == e.qos && (o / 4 % 2 == 1 <==> e.noLocal) && (o / 8 % 2 == 1 <==> e.retainAsPub)
      && o / 16 % 4 == e.handling && o / 64 == 0
  {
  }

  lemma EntryReadsBack(e: Entry, rest: Data)
    requires EntryOk(e)
    ensures ParseEntry(LP(e.topic) + [Options(e)] + rest) == Ok(e, |LP(e.topic)| + 1)
  {
    OptionsReadBack(e);
    hide LP, ParseLP, Options;
    var b := LP(e.topic) + [Options(e)] + rest;
    LPRoundTrip(e.topic, [Options(e)] + rest);
    assert b == LP(e.topic) + ([Options(e)] + rest);
  }

  /** The wire of the filters from the front. */
  lemma {:induction false} EntriesFront(entries: seq<Entry>)
    requires EntriesOk(entries) && entries != []
    ensures EntriesWire(entries) == LP(entries[0].topic) + [Options(entries[0])] + EntriesWire(entries[1..])
  {
    var n := |entries| - 1;
    if n == 0 {
      assert entries[..0] == [] && entries[1..] == [];
    } else {
      EntriesFront(entries[..n]);
      assert entries[..n][1..] == entries[1..][..n - 1];
      hide LP, Options;
      var a, c := LP(entries[0].topic) + [Options(entries[0])], LP(entries[n].topic) + [Options(entries[n])];
      var b := EntriesWire(entries[1..][..n - 1]);
      assert entries[1..][n - 1] == entries[n];
      assert EntriesWire(entries) == (a + b) + c == a + (b + c);
    }
  }

  lemma {:induction false} EntriesReadBack(entries: seq<Entry>)
    requires EntriesOk(entries)
    ensures ParseEntries(EntriesWire(entries), |EntriesWire(entries)|) == Ok(entries, |EntriesWire(entries)|)
  {
    if entries != [] {
      EntriesFront(entries);
      EntriesReadBack(entries[1..]);
      hide EntriesWire, Options;
      EntriesNext(entries[0], entries[1..], EntriesWire(entries[1..]));
      assert [entries[0]] + entries[1..] == entries;
    }
  }

  lemma EntriesNext(e: Entry, more: seq<Entry>, rest: Data)
    requires EntryOk(e) && ParseEntries(rest, |rest|) == Ok(more, |rest|)
    ensures var b := LP(e.topic) + [Options(e)] + rest; ParseEntries(b, |b|) == Ok([e] + more, |b|)
  {
    EntryReadsBack(e, rest);
    hide ParseEntry, LP, Options, EntryOk;
    var one := LP(e.topic) + [Options(e)];
    assert (one + rest)[|one|..] == rest;
  }

  /** The first byte behind the properties. */
  lemma EntriesHead(m: Subscribe)
    requires EntriesOk(m.entries)
    ensures m.entries == [] <==> EntriesWire(m.entries) == []
    ensures m.entries != [] ==> EntriesWire(m.entries)[0] as int == |m.entries[0].topic| / 256
  {
    if m.entries != [] {
      EntriesFront(m.entries);
    }
  }

  /** The identifier read back, when something else follows it. */
  lemma IdReadsBack(m: Subscribe, tail: Data)
    requires tail != [] && tail[0] != SUB_ID
    ensures ParseId(IdEnc(m) + tail, 0) == Ok(if m.subId <= MAX_REMAINING then m.subId else 0, |IdEnc(m)|)
  {
    var b := IdEnc(m) + tail;
    if IdEnc(m) == [] {
      assert b == tail;
    } else {
      LbRoundTrip(m.subId, tail);
      assert b[1..] == Varint(m.subId) + tail;
    }
  }

  /** The user properties behind an identifier that was read. */
  lemma BehindId(m1: Subscribe, id: Data, v: nat, rest: Data)
    requires ParseId(id + rest, m1.subId) == Ok(v, |id|)
    ensures DecodeProperties(m1, id + rest) ==
      match ParseProps(rest)
      case Bad => Bad
      case Panics => Panics
      case Ok(props, k) => Ok(m1.(subId := v, props := props), |id| + k)
  {
  }

  lemma PropertiesReadBack(m1: Subscribe, m: Subscribe, tail: Data)
    requires PropsFit(m.props) && m1.subId == 0 && (tail == [] || tail[0] != USER_PROPERTY)
    requires m.props == [] ==> tail != [] && tail[0] != SUB_ID
    ensures DecodeProperties(m1, Properties(m) + tail) ==
      Ok(m1.(subId := Sent(m).subId, props := Padded(m.props)), |Properties(m)|)
  {
    var id, rest := IdEnc(m), Props(m.props) + tail;
    assert m.props == [] ==> rest == tail;
    IdReadsBack(m, rest);
    PropsRoundTrip(m.props, tail);
    hide ParseProps, Props, ParseId, Padded, IdEnc, DecodeProperties, PropsFit;
    BehindId(m1, id, Sent(m).subId, rest);
    PropertiesSplit(m, tail);
  }

  lemma PropertiesSplit(m: Subscribe, tail: Data)
    ensures Properties(m) + tail == IdEnc(m) + (Props(m.props) + tail)
    ensures |Properties(m)| == |IdEnc(m)| + |Props(m.props)|
  {
  }

  lemma FrontReadsBack(m: Subscribe, rest: Data)
    requires m.pid < 65536 && |Properties(m)| <= |rest| && |Properties(m)| <= MAX_REMAINING
    ensures DecodeFront(NEW, Front(m) + rest) == Ok(NEW.(pid := m.pid), |Front(m)|)
  {
    hide Properties, LbParse, Varint;
    var len := Varint(|Properties(m)|);
    U16RoundTrip(m.pid, len + rest);
    LbRoundTrip(|Properties(m)|, rest);
    assert Front(m) + rest == U16(m.pid) + (len + rest);
    assert (Front(m) + rest)[2..] == len + rest;
  }

  /** The properties and the filters. */
  function Behind(m: Subscribe): Data
    requires EntriesOk(m.entries)
  {
    Properties(m) + EntriesWire(m.entries)
  }

  /** What is left to read of a written packet when its properties have been read. */
  function BehindFront(m: Subscribe, r: Parsed<Subscribe>): Parsed<Subscribe>
    requires EntriesOk(m.entries) && (r.Ok? ==> r.n <= |Behind(m)|)
  {
    match r
    case Bad => Bad
    case Panics => Panics
    case Ok(m2, k) =>
      DecodeEntries(m2, |Behind(m)| - k, |Header(FIRST, |Body(m)|)| + |Front(m)| + k, Behind(m)[k..])
  }

  /** Up to the properties a written packet is always read as written. */
  lemma DecodeToProperties(m: Subscribe)
    requires Fits(m)
    ensures DecodeInto(NEW, Wire(m)) == BehindFront(m, DecodeProperties(NEW.(pid := m.pid), Behind(m)))
  {
    hide ParseHeader, Header, DecodeProperties, DecodeEntries, DecodeFront, Front, Properties, EntriesWire;
    var rest := Behind(m);
    HeaderRoundTrip(FIRST, SUBSCRIBE, FLAGS, Body(m));
    assert Wire(m)[|Header(FIRST, |Body(m)|)|..] == Body(m);
    assert Body(m) == Front(m) + rest;
    FrontReadsBack(m, rest);
    assert Body(m)[|Front(m)|..] == rest;
    forall k: nat | k <= |rest| ensures Body(m)[|Front(m)| + k..] == rest[k..] {
    }
  }

  /** A reader tells the fields of a written message apart, and takes every byte, when it has
      a filter and the first topic does not trap it. */
  lemma SubscribeReceived(m: Subscribe)
    requires Fits(m) && m.entries != [] && !Trapped(m)
    ensures DecodeInto(NEW, Wire(m)) == Ok(Sent(m), |Wire(m)|)
  {
    EntriesHead(m);
    DecodeToProperties(m);
    PropertiesReadBack(NEW.(pid := m.pid), m, EntriesWire(m.entries));
    var m2 := NEW.(pid := m.pid, subId := Sent(m).subId, props := Padded(m.props));
    FiltersReadBack(m, m2);
    hide DecodeProperties, Properties, EntriesWire, Front, Header, Padded, BehindFront, DecodeInto, Fits, Trapped, Wire;
  }

  lemma FiltersReadBack(m: Subscribe, m2: Subscribe)
    requires Fits(m) && m.entries != [] && m2.entries == []
    ensures |Properties(m)| <= |Behind(m)|
    ensures BehindFront(m, Ok(m2, |Properties(m)|)) == Ok(m2.(entries := m.entries), |Wire(m)|)
  {
    OnlyEntries(m2, m.entries, |Header(FIRST, |Body(m)|)| + |Front(m)| + |Properties(m)|);
    BodySize(m);
    BehindSplit(m);
    hide Properties, EntriesWire, Front, Header, DecodeEntries, Fits, Body, Behind;
  }

  lemma BehindSplit(m: Subscribe)
    requires EntriesOk(m.entries)
    ensures |Behind(m)| == |Properties(m)| + |EntriesWire(m.entries)|
    ensures Behind(m)[|Properties(m)|..] == EntriesWire(m.entries)
  {
  }

  lemma OnlyEntries(m2: Subscribe, entries: seq<Entry>, sofar: nat)
    requires EntriesOk(entries) && entries != [] && m2.entries == []
    ensures var w := EntriesWire(entries);
      DecodeEntries(m2, |w|, sofar, w) == Ok(m2.(entries := entries), sofar + |w|)
  {
    EntriesReadBack(entries);
    hide EntriesWire, ParseEntries;
    assert [] + entries == entries;
  }

  lemma BodySize(m: Subscribe)
    requires EntriesOk(m.entries)
    ensures |Body(m)| == |Front(m)| + |Properties(m)| + |EntriesWire(m.entries)|
  {
  }

  /** In a trap the properties come out wrong, if at all. */
  lemma TrappedProperties(m: Subscribe, m1: Subscribe)
    requires Fits(m) && m.entries != [] && Trapped(m) && m1.subId == 0
    ensures var r := DecodeProperties(m1, Behind(m));
      r.Ok? ==> r.value.subId != m.subId || |r.value.props| > |m.props|
  {
    var tail := EntriesWire(m.entries);
    EntriesHead(m);
    var rest := Props(m.props) + tail;
    assert Properties(m) + tail == IdEnc(m) + rest;
    if rest[0] == SUB_ID {
      assert m.props == [] && rest == tail;
      IdTrapped(m, tail);
    } else {
      IdReadsBack(m, rest);
      PropsRunOn(m.props, tail);
      assert (IdEnc(m) + rest)[|IdEnc(m)|..] == rest;
    }
  }

  lemma LbBounded(b: Data)
    ensures LbParse(b).Ok? ==> LbParse(b).value <= MAX_REMAINING
  {
    LbBelow(b, 0, 0);
    assert Weight(1) == 128 && Weight(2) == 16384 && Weight(3) == 2097152 && Weight(4) == 268435456;
  }

  lemma IdTrapped(m: Subscribe, tail: Data)
    requires tail != [] && tail[0] == SUB_ID
    ensures var r := ParseId(IdEnc(m) + tail, 0); r.Ok? ==> r.value != m.subId
  {
    var b := IdEnc(m) + tail;
    if IdEnc(m) == [] {
      assert b == tail;
      LbBounded(tail[1..]);
      hide LbParse;
    } else {
      LbRoundTrip(m.subId, tail);
      assert b[1..] == Varint(m.subId) + tail;
    }
  }

  /** Decoding into a fresh message recovers every field and every byte exactly for these. */
  lemma SubscribeRoundTrip(m: Subscribe)
    requires Fits(m)
    ensures DecodeInto(NEW, Wire(m)) == Ok(m, |Wire(m)|) <==> Recovers(m)
  {
    if m.entries == [] {
      NoEntries(m);
    } else if Trapped(m) {
      TrappedOut(m);
    } else {
      SubscribeReceived(m);
      hide DecodeInto, Fits, Trapped, Wire, Padded;
      assert Padded(m.props) == m.props <==> |m.props| % 2 == 0 by { PaddedSame(m.props); }
      assert Sent(m) == m <==> Padded(m.props) == m.props && m.subId <= MAX_REMAINING;
    }
  }

  lemma PaddedSame(props: seq<Data>)
    ensures Padded(props) == props <==> |props| % 2 == 0
  {
  }

  lemma TrappedOut(m: Subscribe)
    requires Fits(m) && m.entries != [] && Trapped(m)
    ensures DecodeInto(NEW, Wire(m)) != Ok(m, |Wire(m)|)
  {
    DecodeToProperties(m);
    TrappedProperties(m, NEW.(pid := m.pid));
    hide DecodeInto, DecodeProperties, Properties, EntriesWire, Front, Header, ParseEntries, Fits, Trapped, Wire,
      Body, Behind;
  }

  lemma NoEntries(m: Subscribe)
    requires Fits(m) && m.entries == []
    ensures !DecodeInto(NEW, Wire(m)).Ok?
  {
    DecodeToProperties(m);
    NoTail(m, NEW.(pid := m.pid));
    BodySize(m);
    hide DecodeInto, DecodeProperties, Properties, Front, Header, Fits, Wire, Body;
    assert Behind(m) == Properties(m) + [] == Properties(m);
    assert [] + [] == NEW.entries;
  }

  /** Nothing behind the properties. */
  lemma NoTail(m: Subscribe, m1: Subscribe)
    requires Fits(m) && m1 == NEW.(pid := m.pid)
    ensures var r := DecodeProperties(m1, Properties(m) + []);
      r.Ok? ==> r.n == |Properties(m)| && r.value.entries == []
  {
    if m.props != [] {
      PropertiesReadBack(m1, m, []);
    } else {
      assert Properties(m) + [] == IdEnc(m);
      if IdEnc(m) != [] {
        LbRoundTrip(m.subId, []);
        assert Varint(m.subId) + [] == Varint(m.subId) == IdEnc(m)[1..];
      }
    }
  }

  /** A message with one filter of 2816 to 3071 bytes: its length begins with the identifier
      of a property, so that it does not come back. */
  lemma FilterTaken(topic: Data)
    requires |topic| / 256 == 0x0B
    ensures var m := Subscribe(1, 0, [], [Entry(topic, 0, false, false, 0)]);
      Fits(m) && DecodeInto(NEW, Wire(m)) != Ok(m, |Wire(m)|)
  {
    var m := Subscribe(1, 0, [], [Entry(topic, 0, false, false, 0)]);
    assert EntryOk(m.entries[0]) && m.entries[..0] == [] && EntriesWire([]) == [];
    assert EntriesWire(m.entries) == [] + (LP(topic) + [Options(m.entries[0])]);
    assert Properties(m) == [];
    VarintSize(0);
    assert |Body(m)| <= MAX_REMAINING;
    hide DecodeInto, Wire, Body, EntriesWire;
    SubscribeRoundTrip(m);
  }

  /** Which options are taken: a QoS and a retain handling of at most 2, the reserved bits
      clear. */
  lemma EntryDecides(topic: Data, o: Byte, rest: Data)
    requires |topic| <= MAX_LP
    ensures var r := ParseEntry(LP(topic) + [o] + rest);
      if o % 4 <= 2 && o / 16 <= 2 then
        r == Ok(Entry(topic, o % 4, o / 4 % 2 == 1, o / 8 % 2 == 1, o / 16), |topic| + 3)
      else r == Bad
  {
    LPRoundTrip(topic, [o] + rest);
    assert LP(topic) + [o] + rest == LP(topic) + ([o] + rest);
  }

  /** Which identifiers are taken: those above zero that do not come twice; with nothing
      behind it the reader panics. */
  lemma IdDecides(id: nat, rest: Data, absent: nat)
    requires id <= MAX_REMAINING
    ensures var r := ParseId([0x0B] + (Varint(id) + rest), absent);
      if id == 0 then r == Bad
      else if rest == [] then r == Panics
      else if rest[0] == 0x0B then r == Bad
      else r == Ok(id, 1 + |Varint(id)|)
    ensures rest != [] && rest[0] != 0x0B ==> ParseId(rest, absent) == Ok(absent, 0)
  {
    LbRoundTrip(id, rest);
    assert ([0x0B] + (Varint(id) + rest))[1..] == Varint(id) + rest;
    hide LbParse, Varint;
  }

  /** A message with both properties and two filters, and its bytes. */
  const FULL := Subscribe(
    10, 200, [[0x6B], [0x76]],
    [Entry([0x61, 0x2F, 0x23], 1, true, false, 2), Entry([0x62], 0, false, true, 0)])

  lemma ExamplePieces()
    ensures Properties(FULL) == [0x0B, 0xC8, 0x01] + [0x26, 0x00, 0x01, 0x6B, 0x00, 0x01, 0x76]
    ensures EntriesOk(FULL.entries)
    ensures EntriesWire(FULL.entries) == [0x00, 0x03, 0x61, 0x2F, 0x23, 0x25] + [0x00, 0x01, 0x62, 0x08]
  {
    assert FULL.props[2..] == [];
    assert FULL.entries[..1] == [FULL.entries[0]] && FULL.entries[..1][..0] == [];
    assert EntriesWire(FULL.entries[..1]) == [] + (LP([0x61, 0x2F, 0x23]) + [0x25]);
  }

  /** Type and length, identifier and length of the properties, those, the filters. */
  lemma WireExample()
    ensures EntriesOk(FULL.entries)
    ensures Wire(FULL) ==
      [0x82] + [0x17] + ([0x00, 0x0A] + [0x0A] +
      ([0x0B, 0xC8, 0x01] + [0x26, 0x00, 0x01, 0x6B, 0x00, 0x01, 0x76]) +
      ([0x00, 0x03, 0x61, 0x2F, 0x23, 0x25] + [0x00, 0x01, 0x62, 0x08]))
  {
    ExamplePieces();
    hide Properties, EntriesWire, EntriesOk;
  }
}
