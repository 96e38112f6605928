/**
  dbAckqueue of db_ackqueue.go and the flow caches of mem_session_store.go, updated in place.
 */
module DbAckQueues {
  import Bits
  import opened Options
  import opened AckSpec
  import opened AckQueues
  import opened DbAckSpec

  type ClientId = string

  /** An acknowledgement that finds its entry but cannot be encoded into it. */
  predicate Unencoded(q: Queue, ack: Msg) {
    IsAck(ack.mtype) && Live(q.items, ack.pktid) && !ack.encodes
  }

  /** The caches of memSessionStore that message flows go through, by client. */
  class MemSessionStore {
    var recCache: map<ClientId, map<PacketId, Msg>>
    var sendCache: map<ClientId, map<PacketId, Msg>>
    var secTwoCache: map<ClientId, set<PacketId>>

    function Of<V>(cache: map<ClientId, V>, client: ClientId): Option<V> {
      if client in cache then Some(cache[client]) else None
    }

    function FlowsOf(client: ClientId): Flows
      reads this
    {
      Flows(Of(recCache, client), Of(sendCache, client), Of(secTwoCache, client))
    }

    twostate predicate OnlyFor(client: ClientId)
      reads this
    {
      forall other :: other != client ==> FlowsOf(other) == old(FlowsOf(other))
    }

    constructor ()
      ensures forall client :: FlowsOf(client) == Flows(None, None, None)
    {
      recCache, sendCache, secTwoCache := map[], map[], map[];
    }

    method CacheInflowMsg(client: ClientId, msg: Msg)
      modifies this
      ensures OnlyFor(client)
      ensures FlowsOf(client) == old(FlowsOf(client)).(inflow := Cached(old(FlowsOf(client)).inflow, msg))
    {
      var v: map<PacketId, Msg> := if client in recCache then recCache[client] else map[];
      recCache := recCache[client := v[msg.pktid := msg]];
    }

    method ReleaseInflowMsg(client: ClientId, id: PacketId) returns (err: bool)
      modifies this
      ensures OnlyFor(client)
      ensures err <==> !Stored(old(FlowsOf(client)).inflow, id)
      ensures FlowsOf(client) == if err then old(FlowsOf(client))
                                 else old(FlowsOf(client)).(inflow := Without(old(FlowsOf(client)).inflow, id))
    {
      if client !in recCache {
        return true;
      }
      if id !in recCache[client] {
        return true;
      }
      recCache := recCache[client := recCache[client] - {id}];
      return false;
    }

    method CacheOutflowMsg(client: ClientId, msg: Msg)
      modifies this
      ensures OnlyFor(client)
      ensures FlowsOf(client) == old(FlowsOf(client)).(outflow := Cached(old(FlowsOf(client)).outflow, msg))
    {
      var v: map<PacketId, Msg> := if client in sendCache then sendCache[client] else map[];
      sendCache := sendCache[client := v[msg.pktid := msg]];
    }

    method ReleaseOutflowMsg(client: ClientId, id: PacketId) returns (err: bool)
      modifies this
      ensures OnlyFor(client)
      ensures err <==> !Stored(old(FlowsOf(client)).outflow, id)
      ensures FlowsOf(client) == if err then old(FlowsOf(client))
                                 else old(FlowsOf(client)).(outflow := Without(old(FlowsOf(client)).outflow, id))
    {
      if client !in sendCache {
        return true;
      }
      if id !in sendCache[client] {
        return true;
      }
      sendCache := sendCache[client := sendCache[client] - {id}];
      return false;
    }

    method CacheOutflowSecMsgId(client: ClientId, id: PacketId)
      modifies this
      ensures OnlyFor(client)
      ensures FlowsOf(client) == old(FlowsOf(client)).(second := Some(old(FlowsOf(client)).second.GetOr({}) + {id}))
    {
      var v: set<PacketId> := if client in secTwoCache then secTwoCache[client] else {};
      secTwoCache := secTwoCache[client := v + {id}];
    }

    method ReleaseOutflowSecMsgId(client: ClientId, id: PacketId) returns (err: bool)
      modifies this
      ensures OnlyFor(client)
      ensures err <==> old(FlowsOf(client)).second == None
      ensures FlowsOf(client) == if err then old(FlowsOf(client))
                                 else old(FlowsOf(client)).(second := Some(old(FlowsOf(client)).second.value - {id}))
    {
      if client !in secTwoCache {
        return true;
      }
      secTwoCache := secTwoCache[client := secTwoCache[client] - {id}];
      return false;
    }
  }

  class DbAckQueue {
    const memAQ: AckQueue
    const sessionStore: MemSessionStore
    const clientId: ClientId
    const isIn: bool

    ghost predicate Valid()
      reads this, memAQ, memAQ.ring
    {
      memAQ.Valid()
    }

    ghost function View(): Db
      requires Valid()
      reads this, memAQ, memAQ.ring, sessionStore
    {
      Db(memAQ.View(), sessionStore.FlowsOf(clientId))
    }

    constructor (size: nat, store: MemSessionStore, clientId: ClientId, isIn: bool)
      requires 0 < size <= 1024
      ensures Valid() && fresh(memAQ) && fresh(memAQ.ring) && sessionStore == store && this.isIn == isIn
      ensures View() == Db(AckSpec.EMPTY, store.FlowsOf(clientId)) && this.clientId == clientId
    {
      SmallSize();
      memAQ := new AckQueue(size);
      sessionStore := store;
      this.clientId := clientId;
      this.isIn := isIn;
    }

    method Wait(msg: Msg, onComplete: Option<nat>) returns (err: bool)
      requires Valid()
      modifies memAQ, memAQ.ring, sessionStore
      ensures Valid() && (memAQ.ring == old(memAQ.ring) || fresh(memAQ.ring))
      ensures View() == DbWait(old(View()), msg, onComplete, isIn)
      ensures msg.mtype == PUBLISH && msg.qos in {1, 2} && !isIn ==>
        Stored(View().flows.outflow, msg.pktid) && View().flows.outflow.value[msg.pktid] == msg
      ensures msg.mtype == PUBLISH && msg.qos == 2 && isIn ==>
        Stored(View().flows.inflow, msg.pktid) && View().flows.inflow.value[msg.pktid] == msg
      ensures err <==> !IsQueued(msg) && msg.mtype != PINGREQ
      ensures forall other :: other != clientId ==> sessionStore.FlowsOf(other) == old(sessionStore.FlowsOf(other))
    {
      if msg.mtype == PUBLISH {
        if msg.qos == 0 {
          return true;
        } else if msg.qos == 2 && isIn {
          sessionStore.CacheInflowMsg(clientId, msg);
        } else if msg.qos == 2 && !isIn {
          sessionStore.CacheOutflowMsg(clientId, msg);
        } else if msg.qos == 1 && !isIn {
          sessionStore.CacheOutflowMsg(clientId, msg);
        }
      } else if msg.mtype != SUBSCRIBE && msg.mtype != UNSUBSCRIBE && msg.mtype != PINGREQ {
        return true;
      }
      err := memAQ.Wait(msg, onComplete);
    }

    method Ack(msg: Msg) returns (err: bool)
      requires Valid()
      modifies memAQ, memAQ.ring, sessionStore
      ensures Valid() && memAQ.ring == old(memAQ.ring)
      ensures View() == DbAck(old(View()), msg)
      ensures !err <==> StoreTakes(old(View()).flows, msg) && !Unencoded(old(View()).queue, msg)
      ensures forall other :: other != clientId ==> sessionStore.FlowsOf(other) == old(sessionStore.FlowsOf(other))
    {
      hide AckQueue.Valid, DoAck, Cached, Without;
      err := false;
      if msg.mtype == PUBACK {
        err := sessionStore.ReleaseOutflowMsg(clientId, msg.pktid);
      } else if msg.mtype == PUBREC {
        err := sessionStore.ReleaseOutflowMsg(clientId, msg.pktid);
        if err {
          return true;
        }
        sessionStore.CacheOutflowSecMsgId(clientId, msg.pktid);
      } else if msg.mtype == PUBREL {
        err := sessionStore.ReleaseInflowMsg(clientId, msg.pktid);
      } else if msg.mtype == PUBCOMP {
        err := sessionStore.ReleaseOutflowSecMsgId(clientId, msg.pktid);
      } else if msg.mtype != PINGRESP {
        return true;
      }
      if err {
        return true;
      }
      err := memAQ.Ack(msg);
    }

    method Acked() returns (done: seq<Ackmsg>)
      requires Valid()
      modifies memAQ, memAQ.ring
      ensures Valid() && memAQ.ring == old(memAQ.ring)
      ensures done == Released(old(View()).queue) && View() == DbAcked(old(View()))
    {
      done := memAQ.Acked();
    }
  }

  /** The two outgoing queues of a session, over one store and one client, with the history
      of what was done to them. */
  class OutQueues {
    const pub1ack: DbAckQueue
    const pub2out: DbAckQueue
    ghost var ops: seq<OutOp>

    ghost predicate Apart()
      reads this, pub1ack.memAQ, pub2out.memAQ
    {
      && pub1ack.sessionStore == pub2out.sessionStore && pub1ack.clientId == pub2out.clientId
      && !pub1ack.isIn && !pub2out.isIn
      && pub1ack.memAQ != pub2out.memAQ && pub1ack.memAQ.ring != pub2out.memAQ.ring
    }

    ghost predicate Valid()
      reads this, pub1ack, pub2out, pub1ack.sessionStore
      reads pub1ack.memAQ, pub1ack.memAQ.ring, pub2out.memAQ, pub2out.memAQ.ring
    {
      Apart() && pub1ack.Valid() && pub2out.Valid() && AreOutOps(ops) && View() == OutRun(ops)
    }

    ghost function View(): Out
      requires pub1ack.Valid() && pub2out.Valid()
      reads this, pub1ack, pub2out, pub1ack.sessionStore
      reads pub1ack.memAQ, pub1ack.memAQ.ring, pub2out.memAQ, pub2out.memAQ.ring
    {
      Out(pub1ack.memAQ.View(), pub2out.memAQ.View(), pub1ack.sessionStore.FlowsOf(pub1ack.clientId))
    }

    constructor (size: nat, store: MemSessionStore, clientId: ClientId)
      requires 0 < size <= 1024 && store.FlowsOf(clientId) == Flows(None, None, None)
      ensures Valid() && ops == [] && pub1ack.sessionStore == store && pub1ack.clientId == clientId
    {
      pub1ack := new DbAckQueue(size, store, clientId, false);
      pub2out := new DbAckQueue(size, store, clientId, false);
      ops := [];
    }

    /** publish: a message of QoS 1 or 2 waits in its queue. */
    method Publish(msg: Msg, onComplete: Option<nat>) returns (err: bool)
      requires Valid() && msg.mtype == PUBLISH && msg.qos in {1, 2}
      modifies this`ops, pub1ack.sessionStore
      modifies pub1ack.memAQ, pub1ack.memAQ.ring, pub2out.memAQ, pub2out.memAQ.ring
      ensures Valid() && ops == old(ops) + [Send(msg, onComplete)] && !err
    {
      hide AckQueue.Valid, AckQueue.View, DbWait, OutRun, AreOutOps, MemSessionStore.FlowsOf;
      RunOneMore(ops, Send(msg, onComplete));
      if msg.qos == 1 {
        err := pub1ack.Wait(msg, onComplete);
      } else {
        err := pub2out.Wait(msg, onComplete);
      }
      ops := ops + [Send(msg, onComplete)];
    }

    /** The acknowledgements of outgoing messages: each goes to the queue of its type, and
        what that finishes is taken. */
    method Acknowledge(ack: Msg) returns (err: bool, done: seq<Ackmsg>)
      requires Valid() && ack.mtype in {PUBACK, PUBREC, PUBCOMP}
      modifies this`ops, pub1ack.sessionStore
      modifies pub1ack.memAQ, pub1ack.memAQ.ring, pub2out.memAQ, pub2out.memAQ.ring
      ensures Valid() && ops == old(ops) + [AckOp(ack)] + if err then [] else TakeOps(ack)
      ensures !err <==> StoreTakes(old(View()).flows, ack) && !Unencoded(QueueOf(old(View()), ack), ack)
      ensures done == if err || ack.mtype == PUBREC then [] else Released(QueueOf(OutRun(old(ops) + [AckOp(ack)]), ack))
    {
      hide OutRun, AreOutOps, Released, StoreTakes, Unencoded;
      done := [];
      if ack.mtype == PUBACK {
        err := AckOne(ack);
      } else {
        err := AckTwo(ack);
      }
      if !err && ack.mtype == PUBACK {
        done := TakenOne();
      } else if !err && ack.mtype == PUBCOMP {
        done := TakenTwo();
      }
    }

    method AckOne(ack: Msg) returns (err: bool)
      requires Valid() && ack.mtype == PUBACK
      modifies this`ops, pub1ack.sessionStore, pub1ack.memAQ, pub1ack.memAQ.ring
      ensures Valid() && ops == old(ops) + [First(ack)] && pub1ack.memAQ.ring == old(pub1ack.memAQ.ring)
      ensures !err <==> StoreTakes(old(View()).flows, ack) && !Unencoded(old(View()).one, ack)
    {
      hide AckQueue.Valid, AckQueue.View, DbAck, OutRun, AreOutOps, MemSessionStore.FlowsOf, StoreTakes;
      RunOneMore(ops, First(ack));
      err := pub1ack.Ack(ack);
      ops := ops + [First(ack)];
    }

    method AckTwo(ack: Msg) returns (err: bool)
      requires Valid() && ack.mtype in {PUBREC, PUBCOMP}
      modifies this`ops, pub1ack.sessionStore, pub2out.memAQ, pub2out.memAQ.ring
      ensures Valid() && ops == old(ops) + [AckOp(ack)] && pub2out.memAQ.ring == old(pub2out.memAQ.ring)
      ensures !err <==> StoreTakes(old(View()).flows, ack) && !Unencoded(old(View()).two, ack)
    {
      hide AckQueue.Valid, AckQueue.View, DbAck, OutRun, AreOutOps, MemSessionStore.FlowsOf, StoreTakes;
      RunOneMore(ops, AckOp(ack));
      err := pub2out.Ack(ack);
      ops := ops + [AckOp(ack)];
    }

    method TakenOne() returns (done: seq<Ackmsg>)
      requires Valid()
      modifies this`ops, pub1ack.memAQ, pub1ack.memAQ.ring
      ensures Valid() && ops == old(ops) + [TakeOne] && done == Released(old(View()).one)
      ensures pub1ack.memAQ.ring == old(pub1ack.memAQ.ring)
    {
      hide AckQueue.Valid, AckQueue.View, DbAcked, OutRun, AreOutOps, MemSessionStore.FlowsOf, Released;
      RunOneMore(ops, TakeOne);
      done := pub1ack.Acked();
      ops := ops + [TakeOne];
    }

    method TakenTwo() returns (done: seq<Ackmsg>)
      requires Valid()
      modifies this`ops, pub2out.memAQ, pub2out.memAQ.ring
      ensures Valid() && ops == old(ops) + [TakeTwo] && done == Released(old(View()).two)
      ensures pub2out.memAQ.ring == old(pub2out.memAQ.ring)
    {
      hide AckQueue.Valid, AckQueue.View, DbAcked, OutRun, AreOutOps, MemSessionStore.FlowsOf, Released;
      RunOneMore(ops, TakeTwo);
      done := pub2out.Acked();
      ops := ops + [TakeTwo];
    }
  }

  /** The queue of incoming QoS 2 messages of a session, with the history of what was done to
      it. */
  class InQueue {
    const pub2in: DbAckQueue
    ghost var ops: seq<InOp>

    ghost predicate Valid()
      reads this, pub2in, pub2in.sessionStore, pub2in.memAQ, pub2in.memAQ.ring
    {
      pub2in.isIn && pub2in.Valid() && AreInOps(ops) && pub2in.View() == InRun(ops)
    }

    constructor (size: nat, store: MemSessionStore, clientId: ClientId)
      requires 0 < size <= 1024 && store.FlowsOf(clientId) == Flows(None, None, None)
      ensures Valid() && ops == [] && pub2in.sessionStore == store && pub2in.clientId == clientId
    {
      pub2in := new DbAckQueue(size, store, clientId, true);
      ops := [];
    }

    /** processPublish at QoS 2: the message waits for its PUBREL. */
    method Publish(msg: Msg)
      requires Valid() && msg.mtype == PUBLISH && msg.qos == 2
      modifies this`ops, pub2in.sessionStore, pub2in.memAQ, pub2in.memAQ.ring
      ensures Valid() && ops == old(ops) + [Receive(msg)]
    {
      hide AckQueue.Valid, AckQueue.View, DbWait, InRun, AreInOps, MemSessionStore.FlowsOf;
      InOneMore(ops, Receive(msg));
      var _ := pub2in.Wait(msg, None);
      ops := ops + [Receive(msg)];
    }

    /** A PUBREL releases the message, and what is finished is taken. */
    method Release(ack: Msg) returns (err: bool, done: seq<Ackmsg>)
      requires Valid() && ack.mtype == PUBREL
      modifies this`ops, pub2in.sessionStore, pub2in.memAQ, pub2in.memAQ.ring
      ensures Valid() && ops == old(ops) + [Rel(ack)] + if err then [] else [TakeIn]
      ensures !err <==> Stored(old(InRun(ops)).flows.inflow, ack.pktid) && !Unencoded(old(InRun(ops)).queue, ack)
      ensures done == if err then [] else Released(InRun(old(ops) + [Rel(ack)]).queue)
      ensures !Stored(InRun(ops).flows.inflow, ack.pktid)
    {
      hide AckQueue.Valid, AckQueue.View, DbAck, DbAcked, InRun, AreInOps, MemSessionStore.FlowsOf, Released;
      InOneMore(ops, Rel(ack));
      RelUnstored(pub2in.View(), ack);
      err := pub2in.Ack(ack);
      ops := ops + [Rel(ack)];
      done := [];
      if !err {
        InOneMore(ops, TakeIn);
        TakeKeepsFlows(pub2in.View());
        done := pub2in.Acked();
        ops := ops + [TakeIn];
      }
    }
  }

  lemma InOneMore(ops: seq<InOp>, op: InOp)
    requires AreInOps(ops) && IsInOp(op)
    ensures AreInOps(ops + [op]) && InRun(ops + [op]) == InStepOf(InRun(ops), op)
  {
  }

  lemma RelUnstored(d: Db, ack: Msg)
    requires ack.mtype == PUBREL
    ensures !Stored(DbAck(d, ack).flows.inflow, ack.pktid)
    ensures StoreTakes(d.flows, ack) <==> Stored(d.flows.inflow, ack.pktid)
  {
  }

  lemma TakeKeepsFlows(d: Db)
    ensures DbAcked(d).flows == d.flows
  {
  }

  function AckOp(ack: Msg): OutOp
    requires ack.mtype in {PUBACK, PUBREC, PUBCOMP}
  {
    if ack.mtype == PUBACK then First(ack) else if ack.mtype == PUBREC then Rec(ack) else Comp(ack)
  }

  function QueueOf(d: Out, ack: Msg): Queue {
    if ack.mtype == PUBACK then d.one else d.two
  }

  function TakeOps(ack: Msg): seq<OutOp> {
    if ack.mtype == PUBACK then [TakeOne] else if ack.mtype == PUBCOMP then [TakeTwo] else []
  }

  lemma RunOneMore(ops: seq<OutOp>, op: OutOp)
    requires AreOutOps(ops) && IsOutOp(op)
    ensures AreOutOps(ops + [op]) && OutRun(ops + [op]) == OutStep(OutRun(ops), op)
  {
    OneMore(ops, op);
  }

  lemma SmallSize()
    ensures Bits.Pow2(62) >= 1024
  {
  }
}
