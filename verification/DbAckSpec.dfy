/**
  The ack queue with its write-through session store, as a value: dbAckqueue of
  db_ackqueue.go over the flow caches of mem_session_store.go, for one client.
 */
module DbAckSpec {
  import opened Options
  import opened AckSpec

  /** One client's rows; None where the store has no table for the client yet. */
  datatype Flows = Flows(inflow: Option<map<PacketId, Msg>>, outflow: Option<map<PacketId, Msg>>,
    second: Option<set<PacketId>>)

  datatype Db = Db(queue: Queue, flows: Flows)

  const NEW := Db(AckSpec.EMPTY, Flows(None, None, None))

  function Cached(table: Option<map<PacketId, Msg>>, msg: Msg): (r: Option<map<PacketId, Msg>>)
    ensures Stored(r, msg.pktid) && r.value[msg.pktid] == msg
    ensures forall id :: id != msg.pktid && Stored(r, id) ==> Stored(table, id)
    ensures forall id :: id != msg.pktid && Stored(table, id) ==> Stored(r, id) && r.value[id] == table.value[id]
  {
    Some(table.GetOr(map[])[msg.pktid := msg])
  }

  predicate Stored(table: Option<map<PacketId, Msg>>, id: PacketId) {
    table.Some? && id in table.value
  }

  function Without(table: Option<map<PacketId, Msg>>, id: PacketId): (r: Option<map<PacketId, Msg>>)
    requires Stored(table, id)
    ensures !Stored(r, id)
    ensures forall other :: Stored(r, other) ==> Stored(table, other)
    ensures forall other :: other != id && Stored(table, other) ==>
      Stored(r, other) && r.value[other] == table.value[other]
  {
    Some(table.value - {id})
  }

  /** The store's part of Wait. */
  function StoreWait(f: Flows, msg: Msg, isIn: bool): Flows {
    if msg.mtype == PUBLISH && msg.qos == 2 && isIn then f.(inflow := Cached(f.inflow, msg))
    else if msg.mtype == PUBLISH && (msg.qos == 2 || msg.qos == 1) && !isIn then f.(outflow := Cached(f.outflow, msg))
    else f
  }

  function DbWait(d: Db, msg: Msg, onComplete: Option<nat>, isIn: bool): Db {
    if IsQueued(msg) || msg.mtype == PINGREQ then Db(DoWait(d.queue, msg, onComplete), StoreWait(d.flows, msg, isIn))
    else d
  }

  /** Whether the store takes an acknowledgement; otherwise Ack fails before the queue. */
  predicate StoreTakes(f: Flows, ack: Msg) {
    match ack.mtype
    case PUBACK => Stored(f.outflow, ack.pktid)
    case PUBREC => Stored(f.outflow, ack.pktid)
    case PUBREL => Stored(f.inflow, ack.pktid)
    case PUBCOMP => f.second.Some?
    case PINGRESP => true
    case _ => false
  }

  function StoreAck(f: Flows, ack: Msg): Flows
    requires StoreTakes(f, ack)
  {
    match ack.mtype
    case PUBACK => f.(outflow := Without(f.outflow, ack.pktid))
    case PUBREC => f.(outflow := Without(f.outflow, ack.pktid), second := Some(f.second.GetOr({}) + {ack.pktid}))
    case PUBREL => f.(inflow := Without(f.inflow, ack.pktid))
    case PUBCOMP => f.(second := Some(f.second.value - {ack.pktid}))
    case _ => f
  }

  function DbAck(d: Db, ack: Msg): Db {
    if StoreTakes(d.flows, ack) then Db(DoAck(d.queue, ack), StoreAck(d.flows, ack)) else d
  }

  function DbAcked(d: Db): Db {
    d.(queue := DoAcked(d.queue))
  }

  // ---------- the two outgoing queues of a client ----------

  /** pub1ack and pub2out, which write through to the same tables. */
  datatype Out = Out(one: Queue, two: Queue, flows: Flows)

  const NOTHING := Out(AckSpec.EMPTY, AckSpec.EMPTY, Flows(None, None, None))

  /** A message of QoS 1 or 2 sent, an acknowledgement handed to the queue of its type, and
      what is finished taken from a queue. */
  datatype OutOp =
    | Send(msg: Msg, onComplete: Option<nat>)
    | First(ack: Msg)
    | Rec(ack: Msg)
    | Comp(ack: Msg)
    | TakeOne
    | TakeTwo

  predicate IsOutOp(op: OutOp) {
    match op
    case Send(msg, _) => msg.mtype == PUBLISH && msg.qos in {1, 2}
    case First(ack) => ack.mtype == PUBACK
    case Rec(ack) => ack.mtype == PUBREC
    case Comp(ack) => ack.mtype == PUBCOMP
    case _ => true
  }

  function WithOne(d: Out, next: Db): Out {
    Out(next.queue, d.two, next.flows)
  }

  function WithTwo(d: Out, next: Db): Out {
    Out(d.one, next.queue, next.flows)
  }

  function OutStep(d: Out, op: OutOp): Out {
    match op
    case Send(msg, onComplete) =>
      if msg.qos == 1 then WithOne(d, DbWait(Db(d.one, d.flows), msg, onComplete, false))
      else WithTwo(d, DbWait(Db(d.two, d.flows), msg, onComplete, false))
    case First(ack) => WithOne(d, DbAck(Db(d.one, d.flows), ack))
    case Rec(ack) => WithTwo(d, DbAck(Db(d.two, d.flows), ack))
    case Comp(ack) => WithTwo(d, DbAck(Db(d.two, d.flows), ack))
    case TakeOne => WithOne(d, DbAcked(Db(d.one, d.flows)))
    case TakeTwo => WithTwo(d, DbAcked(Db(d.two, d.flows)))
  }

  /** Whether an id is queued in a state. */
  predicate QueuedIn(items: seq<Ackmsg>, id: PacketId, state: MType) {
    exists i :: 0 <= i < |items| && items[i].pktid == id && items[i].state == state
  }

  predicate SecondStored(f: Flows, id: PacketId) {
    f.second.Some? && id in f.second.value
  }

  /** Whether an id waits for its first acknowledgement, at QoS 1 or at QoS 2. */
  predicate WaitsOne(d: Out, id: PacketId) {
    QueuedIn(d.one.items, id, RESERVED)
  }

  predicate WaitsTwo(d: Out, id: PacketId) {
    QueuedIn(d.two.items, id, RESERVED)
  }

  /** The stored messages are those of either queue waiting for their first acknowledgement,
      the stored second-phase ids those waiting for PUBCOMP. */
  ghost predicate InStep(d: Out) {
    && OneEach(d.one.items) && OneEach(d.two.items)
    && (forall id :: Stored(d.flows.outflow, id) <==> WaitsOne(d, id) || WaitsTwo(d, id))
    && (forall id :: SecondStored(d.flows, id) <==> QueuedIn(d.two.items, id, PUBREC))
  }

  /** What a caller can check before the call: the id of a message that is not taken up waits
      already; an acknowledgement does not release the message of the other queue; and no
      PUBCOMP comes for an id still waiting for its PUBREC, once the client has a second-phase
      table and no message of QoS 1 has the id as well. */
  predicate InOrder(d: Out, op: OutOp) {
    match op
    case Send(msg, _) =>
      || Accepts(if msg.qos == 1 then d.one.items else d.two.items, msg)
      || WaitsOne(d, msg.pktid) || WaitsTwo(d, msg.pktid)
    case First(ack) => !WaitsTwo(d, ack.pktid)
    case Rec(ack) => !WaitsOne(d, ack.pktid)
    case Comp(ack) => WaitsTwo(d, ack.pktid) ==> d.flows.second == None || WaitsOne(d, ack.pktid)
    case _ => true
  }

  lemma StateOf(items: seq<Ackmsg>, id: PacketId, state: MType)
    requires OneEach(items)
    ensures QueuedIn(items, id, state) <==> Live(items, id) && items[Find(items, id)].state == state
  {
  }

  /** Setting the state of a queued id. */
  lemma AfterAck(q: Queue, ack: Msg, id: PacketId, state: MType)
    requires OneEach(q.items) && IsAck(ack.mtype)
    ensures OneEach(DoAck(q, ack).items)
    ensures QueuedIn(DoAck(q, ack).items, id, state) <==>
      if id == ack.pktid then Live(q.items, id) && state == ack.mtype else QueuedIn(q.items, id, state)
  {
    var k := Find(q.items, ack.pktid);
    if k < |q.items| {
      StateSet(q.items, k, ack.mtype, DoAck(q, ack).items, id, state);
      StateOf(q.items, id, state);
    } else if id == ack.pktid {
      StateOf(q.items, id, state);
    }
  }

  /** The state of one entry set, its id queued once. */
  lemma StateSet(items: seq<Ackmsg>, k: nat, mtype: MType, next: seq<Ackmsg>, id: PacketId, state: MType)
    requires OneEach(items) && OneEach(next) && k < |items| && |next| == |items|
    requires forall i :: 0 <= i < |items| ==> next[i].pktid == items[i].pktid
    requires next[k].state == mtype && forall i :: 0 <= i < |items| && i != k ==> next[i] == items[i]
    ensures QueuedIn(next, id, state) <==> if id == items[k].pktid then state == mtype else QueuedIn(items, id, state)
  {
  }

  /** A message handed to a queue. */
  lemma AfterWait(q: Queue, msg: Msg, onComplete: Option<nat>, id: PacketId, state: MType)
    requires OneEach(q.items) && IsQueued(msg)
    ensures OneEach(DoWait(q, msg, onComplete).items)
    ensures QueuedIn(DoWait(q, msg, onComplete).items, id, state) <==>
      QueuedIn(q.items, id, state) || (Accepts(q.items, msg) && id == msg.pktid && state == RESERVED)
  {
    var items, am := q.items, Waiting(msg, onComplete);
    if Accepts(items, msg) {
      assert (items + [am])[|items|] == am;
      if QueuedIn(items, id, state) {
        var i :| 0 <= i < |items| && items[i].pktid == id && items[i].state == state;
        assert (items + [am])[i] == items[i];
      }
    }
  }

  /** What is finished waits for nothing. */
  lemma AfterAcked(q: Queue, id: PacketId, state: MType)
    requires OneEach(q.items) && !Final(state)
    ensures OneEach(DoAcked(q).items)
    ensures QueuedIn(DoAcked(q).items, id, state) <==> QueuedIn(q.items, id, state)
  {
    var n := Completed(q.items);
    if QueuedIn(q.items, id, state) {
      var i :| 0 <= i < |q.items| && q.items[i].pktid == id && q.items[i].state == state;
      assert q.items[n..][i - n] == q.items[i];
    }
  }

  /** Each step keeps queues and store in step exactly when it is in order. */
  lemma StepInStep(d: Out, op: OutOp)
    requires InStep(d) && IsOutOp(op)
    ensures InStep(OutStep(d, op)) <==> InOrder(d, op)
  {
    match op {
      case Send(msg, onComplete) => SendInStep(d, msg, onComplete);
      case First(ack) => FirstInStep(d, ack);
      case Rec(ack) => RecInStep(d, ack);
      case Comp(ack) => CompInStep(d, ack);
      case TakeOne => TakeInStep(d);
      case TakeTwo => TakeInStep(d);
    }
  }

  lemma SendInStep(d: Out, msg: Msg, onComplete: Option<nat>)
    requires InStep(d) && msg.mtype == PUBLISH && msg.qos in {1, 2}
    ensures InStep(OutStep(d, Send(msg, onComplete))) <==> InOrder(d, Send(msg, onComplete))
  {
    var next := OutStep(d, Send(msg, onComplete));
    forall id
      ensures Stored(next.flows.outflow, id) <==> Stored(d.flows.outflow, id) || id == msg.pktid
      ensures WaitsOne(next, id) <==> WaitsOne(d, id) || (msg.qos == 1 && Accepts(d.one.items, msg) && id == msg.pktid)
      ensures WaitsTwo(next, id) <==> WaitsTwo(d, id) || (msg.qos == 2 && Accepts(d.two.items, msg) && id == msg.pktid)
      ensures QueuedIn(next.two.items, id, PUBREC) <==> QueuedIn(d.two.items, id, PUBREC)
      ensures OneEach(next.one.items) && OneEach(next.two.items)
    {
      AfterWait(d.one, msg, onComplete, id, RESERVED);
      AfterWait(d.two, msg, onComplete, id, RESERVED);
      AfterWait(d.two, msg, onComplete, id, PUBREC);
    }
    hide QueuedIn, OneEach, Accepts, OutStep;
    assert Stored(next.flows.outflow, msg.pktid);
    assert forall id :: SecondStored(next.flows, id) <==> SecondStored(d.flows, id);
  }

  /** What an acknowledgement makes of the queue it is handed to. */
  lemma QueueAfter(q: Queue, ack: Msg)
    requires OneEach(q.items) && IsAck(ack.mtype)
    ensures OneEach(DoAck(q, ack).items)
    ensures forall id :: QueuedIn(DoAck(q, ack).items, id, RESERVED) <==>
      id != ack.pktid && QueuedIn(q.items, id, RESERVED)
    ensures forall id :: QueuedIn(DoAck(q, ack).items, id, PUBREC) <==>
      if id == ack.pktid then Live(q.items, id) && ack.mtype == PUBREC else QueuedIn(q.items, id, PUBREC)
  {
    forall id
      ensures QueuedIn(DoAck(q, ack).items, id, RESERVED) <==> id != ack.pktid && QueuedIn(q.items, id, RESERVED)
      ensures QueuedIn(DoAck(q, ack).items, id, PUBREC) <==>
        if id == ack.pktid then Live(q.items, id) && ack.mtype == PUBREC else QueuedIn(q.items, id, PUBREC)
      ensures OneEach(DoAck(q, ack).items)
    {
      AfterAck(q, ack, id, RESERVED);
      AfterAck(q, ack, id, PUBREC);
    }
  }

  lemma FirstInStep(d: Out, ack: Msg)
    requires InStep(d) && ack.mtype == PUBACK
    ensures InStep(OutStep(d, First(ack))) <==> InOrder(d, First(ack))
  {
    QueueAfter(d.one, ack);
    hide QueuedIn, OneEach, DoAck;
    var next := OutStep(d, First(ack));
    if StoreTakes(d.flows, ack) {
      assert forall id :: Stored(next.flows.outflow, id) <==> Stored(d.flows.outflow, id) && id != ack.pktid;
      assert forall id :: WaitsOne(next, id) <==> WaitsOne(d, id) && id != ack.pktid;
      assert forall id :: WaitsTwo(next, id) <==> WaitsTwo(d, id);
      assert forall id :: SecondStored(next.flows, id) <==> SecondStored(d.flows, id);
      if WaitsTwo(d, ack.pktid) {
        assert WaitsTwo(next, ack.pktid) && !Stored(next.flows.outflow, ack.pktid);
      }
    }
  }

  lemma RecInStep(d: Out, ack: Msg)
    requires InStep(d) && ack.mtype == PUBREC
    ensures InStep(OutStep(d, Rec(ack))) <==> InOrder(d, Rec(ack))
  {
    QueueAfter(d.two, ack);
    StateOf(d.two.items, ack.pktid, RESERVED);
    hide QueuedIn, OneEach, DoAck;
    var next := OutStep(d, Rec(ack));
    if StoreTakes(d.flows, ack) {
      assert forall id :: Stored(next.flows.outflow, id) <==> Stored(d.flows.outflow, id) && id != ack.pktid;
      assert forall id :: SecondStored(next.flows, id) <==> SecondStored(d.flows, id) || id == ack.pktid;
      assert forall id :: WaitsOne(next, id) <==> WaitsOne(d, id);
      assert forall id :: WaitsTwo(next, id) <==> WaitsTwo(d, id) && id != ack.pktid;
      if WaitsOne(d, ack.pktid) {
        assert WaitsOne(next, ack.pktid) && !Stored(next.flows.outflow, ack.pktid);
      }
    }
  }

  lemma CompInStep(d: Out, ack: Msg)
    requires InStep(d) && ack.mtype == PUBCOMP
    ensures InStep(OutStep(d, Comp(ack))) <==> InOrder(d, Comp(ack))
  {
    QueueAfter(d.two, ack);
    hide QueuedIn, OneEach, DoAck;
    var next := OutStep(d, Comp(ack));
    if StoreTakes(d.flows, ack) {
      assert forall id :: Stored(next.flows.outflow, id) <==> Stored(d.flows.outflow, id);
      assert forall id :: SecondStored(next.flows, id) <==> SecondStored(d.flows, id) && id != ack.pktid;
      assert forall id :: WaitsOne(next, id) <==> WaitsOne(d, id);
      assert forall id :: WaitsTwo(next, id) <==> WaitsTwo(d, id) && id != ack.pktid;
      if WaitsTwo(d, ack.pktid) && !WaitsOne(d, ack.pktid) {
        assert Stored(next.flows.outflow, ack.pktid) && !WaitsOne(next, ack.pktid) && !WaitsTwo(next, ack.pktid);
      }
    }
  }

  lemma TakeInStep(d: Out)
    requires InStep(d)
    ensures InStep(OutStep(d, TakeOne)) && InStep(OutStep(d, TakeTwo))
  {
    forall id
      ensures QueuedIn(DoAcked(d.one).items, id, RESERVED) <==> QueuedIn(d.one.items, id, RESERVED)
      ensures QueuedIn(DoAcked(d.two).items, id, RESERVED) <==> QueuedIn(d.two.items, id, RESERVED)
      ensures QueuedIn(DoAcked(d.two).items, id, PUBREC) <==> QueuedIn(d.two.items, id, PUBREC)
    {
      AfterAcked(d.one, id, RESERVED);
      AfterAcked(d.two, id, RESERVED);
      AfterAcked(d.two, id, PUBREC);
    }
    hide QueuedIn;
  }

  function OutRun(ops: seq<OutOp>): Out {
    if ops == [] then NOTHING else OutStep(OutRun(ops[..|ops| - 1]), ops[|ops| - 1])
  }

  /** Every operation of the run is in order. */
  predicate Orderly(ops: seq<OutOp>) {
    if ops == [] then true
    else
      var before, op := ops[..|ops| - 1], ops[|ops| - 1];
      Orderly(before) && InOrder(OutRun(before), op)
  }

  /** Queues and store are in step after the run and after every part of it. */
  ghost predicate AlwaysInStep(ops: seq<OutOp>) {
    InStep(OutRun(ops)) && (ops != [] ==> AlwaysInStep(ops[..|ops| - 1]))
  }

  predicate AreOutOps(ops: seq<OutOp>) {
    forall i :: 0 <= i < |ops| ==> IsOutOp(ops[i])
  }

  /** Queues and store stay in step all along a run exactly if the run is orderly. */
  lemma {:induction false} RunInStep(ops: seq<OutOp>)
    requires AreOutOps(ops)
    ensures AlwaysInStep(ops) <==> Orderly(ops)
  {
    hide InStep, InOrder, OutStep;
    if ops == [] {
      NothingInStep();
    } else {
      var before, op := ops[..|ops| - 1], ops[|ops| - 1];
      RunInStep(before);
      assert IsOutOp(op);
      if InStep(OutRun(before)) {
        StepInStep(OutRun(before), op);
      }
    }
  }

  lemma NothingInStep()
    ensures InStep(OutRun([]))
  {
  }

  lemma OneMore(ops: seq<OutOp>, op: OutOp)
    ensures OutRun(ops + [op]) == OutStep(OutRun(ops), op)
    ensures Orderly(ops) && InOrder(OutRun(ops), op) ==> Orderly(ops + [op])
    ensures AreOutOps(ops) && IsOutOp(op) ==> AreOutOps(ops + [op])
  {
  }

  /** After an orderly run, one operation out of order. */
  lemma BreaksWith(ops: seq<OutOp>, op: OutOp)
    requires AreOutOps(ops) && Orderly(ops) && IsOutOp(op) && !InOrder(OutRun(ops), op)
    ensures !InStep(OutRun(ops + [op]))
  {
    hide InStep, InOrder, OutStep, OutRun;
    RunInStep(ops);
    OneMore(ops, op);
    StepInStep(OutRun(ops), op);
  }

  lemma Sent(msg: Msg)
    requires msg.mtype == PUBLISH && msg.qos == 2 && msg.encodes
    ensures var ops := [Send(msg, None)]; AreOutOps(ops) && Orderly(ops) && OutRun(ops).one.items == []
    ensures OutRun([Send(msg, None)]).two.items == [Waiting(msg, None)]
    ensures OutRun([Send(msg, None)]).flows == Flows(None, Some(map[msg.pktid := msg]), None)
  {
    OneMore([], Send(msg, None));
    assert [] + [Send(msg, None)] == [Send(msg, None)];
  }

  /** A PUBACK for a message of QoS 2 releases its row, while its queue goes on waiting. */
  lemma CrossAckBreaks(msg: Msg, ack: Msg)
    requires msg.mtype == PUBLISH && msg.qos == 2 && msg.encodes && ack.mtype == PUBACK && ack.pktid == msg.pktid
    ensures !InStep(OutRun([Send(msg, None), First(ack)]))
  {
    var ops := [Send(msg, None)];
    Sent(msg);
    assert OutRun(ops).two.items[0].pktid == ack.pktid && WaitsTwo(OutRun(ops), ack.pktid);
    BreaksWith(ops, First(ack));
    assert ops + [First(ack)] == [Send(msg, None), First(ack)];
  }

  /** A PUBCOMP for a message still waiting for its PUBREC puts them out of step. */
  lemma EarlyCompBreaks(msg: Msg, other: Msg, rec: Msg, comp: Msg)
    requires msg.mtype == other.mtype == PUBLISH && msg.qos == other.qos == 2 && msg.encodes && other.encodes
    requires rec.mtype == PUBREC && comp.mtype == PUBCOMP
    requires msg.pktid == 1 && other.pktid == 2 && rec.pktid == 1 && comp.pktid == 2
    ensures !InStep(OutRun([Send(msg, None), Send(other, None), Rec(rec), Comp(comp)]))
  {
    var two, three := [Send(msg, None), Send(other, None)], [Send(msg, None), Send(other, None), Rec(rec)];
    TwoSent(msg, other);
    OneMore(two, Rec(rec));
    assert two + [Rec(rec)] == three;
    SecondOpened(OutRun(two), rec);
    hide OutRun, OutStep, Orderly, AreOutOps, InStep;
    BreaksWith(three, Comp(comp));
    assert three + [Comp(comp)] == [Send(msg, None), Send(other, None), Rec(rec), Comp(comp)];
  }

  lemma TwoSent(msg: Msg, other: Msg)
    requires msg.mtype == other.mtype == PUBLISH && msg.qos == other.qos == 2 && msg.encodes && other.encodes
    requires msg.pktid == 1 && other.pktid == 2
    ensures var two := [Send(msg, None), Send(other, None)]; var d := OutRun(two);
      && AreOutOps(two) && Orderly(two) && d.one.items == []
      && d.two.items == [Waiting(msg, None), Waiting(other, None)] && Stored(d.flows.outflow, 1)
  {
    var one := [Send(msg, None)];
    Sent(msg);
    OneMore(one, Send(other, None));
    assert one + [Send(other, None)] == [Send(msg, None), Send(other, None)];
  }

  /** A PUBREC makes the second-phase table and lets the other entries be. */
  lemma SecondOpened(d: Out, rec: Msg)
    requires rec.mtype == PUBREC && rec.pktid == 1 && Stored(d.flows.outflow, 1) && d.one.items == []
    requires |d.two.items| == 2 && d.two.items[0].pktid == 1
    requires d.two.items[1].pktid == 2 && d.two.items[1].state == RESERVED
    ensures InOrder(d, Rec(rec))
    ensures var e := OutStep(d, Rec(rec));
      e.flows.second.Some? && e.one.items == [] && WaitsTwo(e, 2) && !WaitsOne(e, 2)
  {
    var e := OutStep(d, Rec(rec));
    assert e.two.items[1] == d.two.items[1];
  }

  /** The message last sent under an id. */
  function LastSent(ops: seq<OutOp>, id: PacketId): Option<Msg> {
    if ops == [] then None
    else
      var op := ops[|ops| - 1];
      if op.Send? && op.msg.pktid == id then Some(op.msg) else LastSent(ops[..|ops| - 1], id)
  }

  /** A row is the message last sent under its id. */
  lemma {:induction false} StoredAsSent(ops: seq<OutOp>, id: PacketId)
    requires AreOutOps(ops)
    ensures Stored(OutRun(ops).flows.outflow, id) ==> LastSent(ops, id) == Some(OutRun(ops).flows.outflow.value[id])
  {
    if ops != [] {
      var before, op := ops[..|ops| - 1], ops[|ops| - 1];
      assert AreOutOps(before) && IsOutOp(op);
      StoredAsSent(before, id);
      hide DoAck, DoAcked, DoWait;
    }
  }

  // ---------- the incoming queue of a client ----------

  /** A message of QoS 2 received, its PUBREL, and what is finished taken. */
  datatype InOp = Receive(msg: Msg) | Rel(ack: Msg) | TakeIn

  predicate IsInOp(op: InOp) {
    match op
    case Receive(msg) => msg.mtype == PUBLISH && msg.qos == 2
    case Rel(ack) => ack.mtype == PUBREL
    case TakeIn => true
  }

  function InStepOf(d: Db, op: InOp): Db {
    match op
    case Receive(msg) => DbWait(d, msg, None, true)
    case Rel(ack) => DbAck(d, ack)
    case TakeIn => DbAcked(d)
  }

  /** The stored incoming messages are those waiting for their PUBREL. */
  ghost predicate InTune(d: Db) {
    && OneEach(d.queue.items)
    && forall id :: Stored(d.flows.inflow, id) <==> QueuedIn(d.queue.items, id, RESERVED)
  }

  /** What a caller can check before the call: a message that is not taken up waits already. */
  predicate InTurn(d: Db, op: InOp) {
    op.Receive? ==> Accepts(d.queue.items, op.msg) || QueuedIn(d.queue.items, op.msg.pktid, RESERVED)
  }

  /** Each step keeps the incoming queue and its store in step exactly when it is in turn. */
  lemma InStepInTune(d: Db, op: InOp)
    requires InTune(d) && IsInOp(op)
    ensures InTune(InStepOf(d, op)) <==> InTurn(d, op)
  {
    match op {
      case Receive(msg) =>
        forall id
          ensures OneEach(DoWait(d.queue, msg, None).items)
          ensures QueuedIn(DoWait(d.queue, msg, None).items, id, RESERVED) <==>
            QueuedIn(d.queue.items, id, RESERVED) || (Accepts(d.queue.items, msg) && id == msg.pktid)
        {
          AfterWait(d.queue, msg, None, id, RESERVED);
        }
        hide QueuedIn, OneEach, Accepts, DoWait;
        assert Stored(InStepOf(d, op).flows.inflow, msg.pktid);
      case Rel(ack) =>
        QueueAfter(d.queue, ack);
        hide QueuedIn, OneEach, DoAck;
      case TakeIn =>
        forall id ensures QueuedIn(DoAcked(d.queue).items, id, RESERVED) <==> QueuedIn(d.queue.items, id, RESERVED)
          ensures OneEach(DoAcked(d.queue).items)
        {
          AfterAcked(d.queue, id, RESERVED);
        }
        hide QueuedIn, OneEach, DoAcked;
    }
  }

  /** A PUBREL that the store takes releases the message of its id, which then waits no more,
      and no other; one that it does not take changes nothing. */
  lemma RelReleases(d: Db, ack: Msg)
    requires InTune(d) && ack.mtype == PUBREL
    ensures var next := InStepOf(d, Rel(ack));
      && !Stored(next.flows.inflow, ack.pktid) && !QueuedIn(next.queue.items, ack.pktid, RESERVED)
      && (forall id :: id != ack.pktid ==> (Stored(next.flows.inflow, id) <==> Stored(d.flows.inflow, id)))
      && (forall id :: id != ack.pktid && Stored(d.flows.inflow, id) ==>
            next.flows.inflow.value[id] == d.flows.inflow.value[id])
      && next.flows.outflow == d.flows.outflow && next.flows.second == d.flows.second
      && (!Stored(d.flows.inflow, ack.pktid) ==> next == d)
      && (Stored(d.flows.inflow, ack.pktid) ==> QueuedIn(next.queue.items, ack.pktid, PUBREL))
  {
    AfterAck(d.queue, ack, ack.pktid, RESERVED);
    AfterAck(d.queue, ack, ack.pktid, PUBREL);
    StateOf(d.queue.items, ack.pktid, RESERVED);
    hide QueuedIn, DoAck, OneEach;
  }

  function InRun(ops: seq<InOp>): Db {
    if ops == [] then NEW else InStepOf(InRun(ops[..|ops| - 1]), ops[|ops| - 1])
  }

  predicate AllInTurn(ops: seq<InOp>) {
    if ops == [] then true
    else
      var before, op := ops[..|ops| - 1], ops[|ops| - 1];
      AllInTurn(before) && InTurn(InRun(before), op)
  }

  ghost predicate AlwaysInTune(ops: seq<InOp>) {
    InTune(InRun(ops)) && (ops != [] ==> AlwaysInTune(ops[..|ops| - 1]))
  }

  predicate AreInOps(ops: seq<InOp>) {
    forall i :: 0 <= i < |ops| ==> IsInOp(ops[i])
  }

  /** The incoming queue and its store stay in step all along a run exactly if every step of
      it is in turn. */
  lemma {:induction false} InRunInTune(ops: seq<InOp>)
    requires AreInOps(ops)
    ensures AlwaysInTune(ops) <==> AllInTurn(ops)
  {
    hide InTune, InTurn, InStepOf;
    if ops == [] {
      NewInTune();
    } else {
      var before, op := ops[..|ops| - 1], ops[|ops| - 1];
      InRunInTune(before);
      assert IsInOp(op);
      if InTune(InRun(before)) {
        InStepInTune(InRun(before), op);
      }
    }
  }

  lemma NewInTune()
    ensures InTune(InRun([]))
  {
  }

  /** The message last received under an id. */
  function LastReceived(ops: seq<InOp>, id: PacketId): Option<Msg> {
    if ops == [] then None
    else
      var op := ops[|ops| - 1];
      if op.Receive? && op.msg.pktid == id then Some(op.msg) else LastReceived(ops[..|ops| - 1], id)
  }

  lemma {:induction false} StoredAsReceived(ops: seq<InOp>, id: PacketId)
    requires AreInOps(ops)
    ensures Stored(InRun(ops).flows.inflow, id) ==> LastReceived(ops, id) == Some(InRun(ops).flows.inflow.value[id])
  {
    if ops != [] {
      var before, op := ops[..|ops| - 1], ops[|ops| - 1];
      assert AreInOps(before) && IsInOp(op);
      StoredAsReceived(before, id);
      hide DoAck, DoAcked, DoWait;
    }
  }

  /** One more operation, in its turn. */
  lemma InNext(ops: seq<InOp>, op: InOp)
    ensures InRun(ops + [op]) == InStepOf(InRun(ops), op)
    ensures AllInTurn(ops) && InTurn(InRun(ops), op) ==> AllInTurn(ops + [op])
    ensures AreInOps(ops) && IsInOp(op) ==> AreInOps(ops + [op])
  {
  }

  lemma TwoReceived(first: Msg, msg: Msg)
    requires first.mtype == msg.mtype == PUBLISH && first.qos == msg.qos == 2 && first.encodes && msg.encodes
    requires first.pktid != msg.pktid
    ensures var two := [Receive(first), Receive(msg)];
      AreInOps(two) && AllInTurn(two) && Stored(InRun(two).flows.inflow, msg.pktid)
    ensures InRun([Receive(first), Receive(msg)]).queue.items == [Waiting(first, None), Waiting(msg, None)]
  {
    var one := [Receive(first)];
    InNext([], Receive(first));
    assert [] + [Receive(first)] == one;
    assert InRun(one).queue.items == [Waiting(first, None)];
    InNext(one, Receive(msg));
    assert one + [Receive(msg)] == [Receive(first), Receive(msg)];
  }

  lemma SecondFinished(d: Db, rel: Msg)
    requires |d.queue.items| == 2 && d.queue.items[0].state == RESERVED && d.queue.items[0].pktid != rel.pktid
    requires d.queue.items[1].pktid == rel.pktid && rel.mtype == PUBREL && Stored(d.flows.inflow, rel.pktid)
    ensures QueuedIn(InStepOf(InStepOf(d, Rel(rel)), TakeIn).queue.items, rel.pktid, PUBREL)
  {
    var e := InStepOf(d, Rel(rel));
    assert e.queue.items[0] == d.queue.items[0] && e.queue.items[1].state == PUBREL;
    assert InStepOf(e, TakeIn).queue.items == e.queue.items;
    assert e.queue.items[1].pktid == rel.pktid;
  }

  /** A PUBLISH received again after its PUBREL, while its finished entry is queued behind
      another, is stored without waiting. */
  lemma LateRepeatBreaks(first: Msg, msg: Msg, rel: Msg)
    requires first.mtype == msg.mtype == PUBLISH && first.qos == msg.qos == 2 && first.encodes && msg.encodes
    requires first.pktid != msg.pktid && rel.mtype == PUBREL && rel.pktid == msg.pktid
    ensures !InTune(InRun([Receive(first), Receive(msg), Rel(rel), TakeIn, Receive(msg)]))
  {
    var two, four := [Receive(first), Receive(msg)], [Receive(first), Receive(msg), Rel(rel), TakeIn];
    TwoReceived(first, msg);
    SecondFinished(InRun(two), rel);
    hide InRun, InStepOf, AllInTurn, AreInOps, InTune, QueuedIn;
    InNext(two, Rel(rel));
    InNext(two + [Rel(rel)], TakeIn);
    assert two + [Rel(rel)] + [TakeIn] == four;
    InNext(four, Receive(msg));
    assert four + [Receive(msg)] == [Receive(first), Receive(msg), Rel(rel), TakeIn, Receive(msg)];
    TuneAfter(four);
    Repeated(InRun(four), msg);
  }

  lemma TuneAfter(ops: seq<InOp>)
    requires AreInOps(ops) && AllInTurn(ops)
    ensures InTune(InRun(ops))
  {
    InRunInTune(ops);
    hide InTune, InRun;
  }

  lemma Repeated(d: Db, msg: Msg)
    requires msg.mtype == PUBLISH && msg.qos == 2 && InTune(d) && QueuedIn(d.queue.items, msg.pktid, PUBREL)
    ensures !InTune(InStepOf(d, Receive(msg)))
  {
    var i :| 0 <= i < |d.queue.items| && d.queue.items[i].pktid == msg.pktid && d.queue.items[i].state == PUBREL;
    FindsIt(d.queue.items, i);
    InStepInTune(d, Receive(msg));
  }
}
