/**
  The ack queue as a value: a sequence of waiting messages, acknowledged in any order and
  released in order, and one ping beside it.
 */
module AckSpec {
  import opened Bytes
  import opened Options

  datatype MType =
    | RESERVED | CONNECT | CONNACK | PUBLISH | PUBACK | PUBREC | PUBREL | PUBCOMP
    | SUBSCRIBE | SUBACK | UNSUBSCRIBE | UNSUBACK | PINGREQ | PINGRESP | DISCONNECT | AUTH

  type PacketId = n: nat | n < 0x10000

  /** A message as the queue sees it: `encoded` is what Encode leaves in a buffer of its
      length, `encodes` whether it returns without an error. */
  datatype Msg = Msg(mtype: MType, pktid: PacketId, qos: nat, dup: bool, encoded: Data, encodes: bool)

  datatype Ackmsg = Ackmsg(mtype: MType, state: MType, pktid: PacketId, msgbuf: Data, ackbuf: Data,
    onComplete: Option<nat>)

  const BLANK := Ackmsg(RESERVED, RESERVED, 0, [], [], None)

  datatype Queue = Queue(items: seq<Ackmsg>, ping: Ackmsg)

  const EMPTY := Queue([], BLANK)

  /** The acknowledgements that complete a cycle; PUBREC is not one, its PUBCOMP will be. */
  predicate Final(state: MType) {
    state in {PUBACK, PUBREL, PUBCOMP, SUBACK, UNSUBACK}
  }

  predicate IsAck(t: MType) {
    t in {PUBACK, PUBREC, PUBREL, PUBCOMP, SUBACK, UNSUBACK}
  }

  // ---------- operations ----------

  function Find(items: seq<Ackmsg>, id: PacketId): (i: nat)
    ensures i <= |items|
    ensures i < |items| ==> items[i].pktid == id
    ensures forall j :: 0 <= j < i ==> items[j].pktid != id
  {
    if items == [] || items[0].pktid == id then 0 else 1 + Find(items[1..], id)
  }

  predicate Live(items: seq<Ackmsg>, id: PacketId) {
    Find(items, id) < |items|
  }

  function Waiting(msg: Msg, onComplete: Option<nat>): Ackmsg {
    Ackmsg(msg.mtype, RESERVED, msg.pktid, msg.encoded, [], onComplete)
  }

  /** Whether insert takes the message up. */
  predicate Accepts(items: seq<Ackmsg>, msg: Msg) {
    !Live(items, msg.pktid) && msg.encodes
  }

  predicate IsQueued(msg: Msg) {
    (msg.mtype == PUBLISH && msg.qos != 0) || msg.mtype == SUBSCRIBE || msg.mtype == UNSUBSCRIBE
  }

  function DoWait(q: Queue, msg: Msg, onComplete: Option<nat>): Queue {
    if IsQueued(msg) && Accepts(q.items, msg) then q.(items := q.items + [Waiting(msg, onComplete)])
    else if msg.mtype == PINGREQ then q.(ping := Ackmsg(PINGREQ, RESERVED, 0, [], [], onComplete))
    else q
  }

  function DoAck(q: Queue, ack: Msg): Queue {
    if IsAck(ack.mtype) then
      var i := Find(q.items, ack.pktid);
      if i < |q.items| then q.(items := q.items[i := q.items[i].(state := ack.mtype, ackbuf := ack.encoded)]) else q
    else if ack.mtype == PINGRESP && q.ping.mtype == PINGREQ then q.(ping := q.ping.(state := PINGRESP))
    else q
  }

  /** How many leading entries are complete. */
  function Completed(items: seq<Ackmsg>): (n: nat)
    ensures n <= |items|
    ensures forall i :: 0 <= i < n ==> Final(items[i].state)
    ensures n < |items| ==> !Final(items[n].state)
  {
    if items == [] || !Final(items[0].state) then 0 else 1 + Completed(items[1..])
  }

  function Pong(q: Queue): seq<Ackmsg> {
    if q.ping.state == PINGRESP then [q.ping] else []
  }

  /** What Acked returns. */
  function Released(q: Queue): seq<Ackmsg> {
    Pong(q) + q.items[..Completed(q.items)]
  }

  function DoAcked(q: Queue): Queue {
    Queue(q.items[Completed(q.items)..], if q.ping.state == PINGRESP then BLANK else q.ping)
  }

  // ---------- invariants ----------

  /** At most one entry for a packet id. */
  predicate OneEach(items: seq<Ackmsg>) {
    forall i, j :: 0 <= i < j < |items| ==> items[i].pktid != items[j].pktid
  }

  lemma FindsIt(items: seq<Ackmsg>, i: nat)
    requires OneEach(items) && i < |items|
    ensures Find(items, items[i].pktid) == i
  {
  }

  // ---------- runs ----------

  datatype Op = Wait(msg: Msg, onComplete: Option<nat>) | Ack(ack: Msg) | Acked

  function Step(q: Queue, op: Op): Queue {
    match op
    case Wait(msg, onComplete) => DoWait(q, msg, onComplete)
    case Ack(ack) => DoAck(q, ack)
    case Acked => DoAcked(q)
  }

  function Run(ops: seq<Op>): Queue {
    if ops == [] then EMPTY else Step(Run(ops[..|ops| - 1]), ops[|ops| - 1])
  }

  /** The part of an entry that no acknowledgement changes. */
  datatype Entry = Entry(mtype: MType, pktid: PacketId, msgbuf: Data, onComplete: Option<nat>)

  function EntryOf(m: Ackmsg): Entry {
    Entry(m.mtype, m.pktid, m.msgbuf, m.onComplete)
  }

  function Entries(items: seq<Ackmsg>): seq<Entry> {
    seq(|items|, i requires 0 <= i < |items| => EntryOf(items[i]))
  }

  /** Whether a message handed over is taken up: one that waits for an acknowledgement, under
      an id that is not queued, and that can be encoded. */
  predicate TakenUp(before: seq<Op>, op: Op) {
    && op.Wait? && ((op.msg.mtype == PUBLISH && op.msg.qos > 0) || op.msg.mtype in {SUBSCRIBE, UNSUBSCRIBE})
    && op.msg.encodes && forall i :: 0 <= i < |Run(before).items| ==> Run(before).items[i].pktid != op.msg.pktid
  }

  /** What was taken up during a run, in order, from the messages themselves. */
  function Taken(ops: seq<Op>): seq<Entry> {
    if ops == [] then []
    else
      var before, op := ops[..|ops| - 1], ops[|ops| - 1];
      Taken(before) +
      if TakenUp(before, op) then [Entry(op.msg.mtype, op.msg.pktid, op.msg.encoded, op.onComplete)] else []
  }

  /** Everything Acked returned during a run, pings aside. */
  function Handed(ops: seq<Op>): seq<Ackmsg> {
    if ops == [] then []
    else
      var before, op := ops[..|ops| - 1], ops[|ops| - 1];
      var q := Run(before);
      Handed(before) + if op.Acked? then q.items[..Completed(q.items)] else []
  }

  const FINISHED := {PUBACK, PUBREL, PUBCOMP, SUBACK, UNSUBACK}

  ghost predicate Fifo(ops: seq<Op>) {
    && Entries(Handed(ops)) + Entries(Run(ops).items) == Taken(ops)
    && (forall i :: 0 <= i < |Handed(ops)| ==> Handed(ops)[i].state in FINISHED)
    && OneEach(Run(ops).items)
  }

  /** In every run what was handed out, followed by what is queued, is what was taken up, in
      order; only completed entries are handed out, and no id is queued twice. */
  lemma {:induction false} QueueIsFifo(ops: seq<Op>)
    ensures Entries(Handed(ops)) + Entries(Run(ops).items) == Taken(ops)
    ensures forall i :: 0 <= i < |Handed(ops)| ==> Handed(ops)[i].state in {PUBACK, PUBREL, PUBCOMP, SUBACK, UNSUBACK}
    ensures OneEach(Run(ops).items)
  {
    if ops != [] {
      var before, op := ops[..|ops| - 1], ops[|ops| - 1];
      QueueIsFifo(before);
      match op {
        case Wait(_, _) => FifoWait(before, ops);
        case Ack(_) => FifoAck(before, ops);
        case Acked => FifoAcked(before, ops);
      }
    }
  }

  lemma FifoWait(before: seq<Op>, ops: seq<Op>)
    requires ops != [] && before == ops[..|ops| - 1] && ops[|ops| - 1].Wait? && Fifo(before)
    ensures Fifo(ops)
  {
    var q := Run(before);
    var Wait(msg, onComplete) := ops[|ops| - 1];
    NotLive(q.items, msg.pktid);
    if IsQueued(msg) && Accepts(q.items, msg) {
      assert Entries(Run(ops).items) == Entries(q.items) + [EntryOf(Waiting(msg, onComplete))];
    }
  }

  lemma NotLive(items: seq<Ackmsg>, id: PacketId)
    ensures !Live(items, id) <==> forall i :: 0 <= i < |items| ==> items[i].pktid != id
  {
  }

  lemma FifoAck(before: seq<Op>, ops: seq<Op>)
    requires ops != [] && before == ops[..|ops| - 1] && ops[|ops| - 1].Ack? && Fifo(before)
    ensures Fifo(ops)
  {
    assert Entries(Run(ops).items) == Entries(Run(before).items);
  }

  lemma EntriesSplit(handed: seq<Ackmsg>, items: seq<Ackmsg>, n: nat)
    requires n <= |items|
    ensures Entries(handed + items[..n]) + Entries(items[n..]) == Entries(handed) + Entries(items)
  {
  }

  lemma FifoAcked(before: seq<Op>, ops: seq<Op>)
    requires ops != [] && before == ops[..|ops| - 1] && ops[|ops| - 1].Acked? && Fifo(before)
    ensures Fifo(ops)
  {
    var q := Run(before);
    var n := Completed(q.items);
    var handed, taken := Handed(before), Taken(before);
    assert Handed(ops) == handed + q.items[..n] && Run(ops).items == q.items[n..] && Taken(ops) == taken + [];
    EntriesSplit(handed, q.items, n);
  }

  // ---------- the acknowledgements of an entry ----------

  /** The last acknowledgement of an id since a message was last taken up under it. */
  function LastAck(ops: seq<Op>, id: PacketId): Option<Msg> {
    if ops == [] then None
    else
      var before, op := ops[..|ops| - 1], ops[|ops| - 1];
      if op.Ack? && op.ack.pktid == id && op.ack.mtype in {PUBACK, PUBREC, PUBREL, PUBCOMP, SUBACK, UNSUBACK} then
        Some(op.ack)
      else if TakenUp(before, op) && op.msg.pktid == id then None
      else LastAck(before, id)
  }

  /** The state and the acknowledgement bytes that an entry should have. */
  predicate AckedBy(m: Ackmsg, ack: Option<Msg>) {
    match ack
    case None => m.state == RESERVED && m.ackbuf == []
    case Some(a) => m.state == a.mtype && m.ackbuf == a.encoded
  }

  /** In every run each entry queued, and so each handed out, has the type and the bytes of
      the last acknowledgement of its id since it was queued, and waits without any as long
      as there was none. */
  lemma {:induction false} EntriesAreAcked(ops: seq<Op>)
    ensures forall i :: 0 <= i < |Run(ops).items| ==>
      AckedBy(Run(ops).items[i], LastAck(ops, Run(ops).items[i].pktid))
  {
    if ops != [] {
      var before, op := ops[..|ops| - 1], ops[|ops| - 1];
      EntriesAreAcked(before);
      QueueIsFifo(before);
      match op {
        case Wait(msg, onComplete) => NotLive(Run(before).items, msg.pktid);
        case Ack(ack) => AckMarks(before, ack);
        case Acked =>
      }
    }
  }

  lemma AckMarks(before: seq<Op>, ack: Msg)
    requires OneEach(Run(before).items)
    requires forall i :: 0 <= i < |Run(before).items| ==>
      AckedBy(Run(before).items[i], LastAck(before, Run(before).items[i].pktid))
    ensures var ops := before + [Ack(ack)]; forall i :: 0 <= i < |DoAck(Run(before), ack).items| ==>
      AckedBy(DoAck(Run(before), ack).items[i], LastAck(ops, DoAck(Run(before), ack).items[i].pktid))
  {
    var ops := before + [Ack(ack)];
    assert ops[..|ops| - 1] == before && ops[|ops| - 1] == Ack(ack);
    var items, next := Run(before).items, DoAck(Run(before), ack).items;
    var k := Find(items, ack.pktid);
    forall i | 0 <= i < |next| ensures AckedBy(next[i], LastAck(ops, next[i].pktid)) {
      assert next[i].pktid == items[i].pktid;
      if items[i].pktid == ack.pktid { FindsIt(items, i); }
    }
  }

  /** Nothing finished is left at the front, and what is handed out was there before. */
  lemma AckedTakesAll(q: Queue)
    ensures DoAcked(q).items == [] || DoAcked(q).items[0].state !in {PUBACK, PUBREL, PUBCOMP, SUBACK, UNSUBACK}
    ensures var n := |q.items| - |DoAcked(q).items|;
      0 <= n <= |Released(q)| && Released(q)[|Released(q)| - n..] + DoAcked(q).items == q.items
  {
  }

  // ---------- the ping ----------

  /** A ping waits until its PINGRESP and is then handed out once, before anything else. */
  lemma PingCycle(q: Queue, ping: Msg, pong: Msg, onComplete: Option<nat>)
    requires ping.mtype == PINGREQ && pong.mtype == PINGRESP
    ensures var asked := DoWait(q, ping, onComplete); var answered := DoAck(asked, pong);
      && asked.items == answered.items == q.items && DoAcked(asked).ping == asked.ping
      && |Released(answered)| == |Released(asked)| + 1 && Released(answered)[1..] == Released(asked)
      && Released(answered)[0] == Ackmsg(PINGREQ, PINGRESP, 0, [], [], onComplete)
      && Released(DoAcked(answered)) == [] && DoAck(DoAcked(answered), pong) == DoAcked(answered)
  {
    var answered := DoAck(DoWait(q, ping, onComplete), pong);
    assert DoAcked(answered).items == q.items[Completed(q.items)..];
    CompletedOnce(q.items);
  }

  lemma CompletedOnce(items: seq<Ackmsg>)
    ensures Completed(items[Completed(items)..]) == 0
  {
  }
}
