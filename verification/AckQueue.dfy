/**
  ackqueue of mem_ackqueue.go: the waiting messages in a power-of-two ring that doubles when
  full, and a map from packet id to ring slot.
 */
module AckQueues {
  import opened Bits
  import opened Options
  import opened AckSpec
  import opened AckRing

  class AckQueue {
    var size: nat
    var mask: nat
    var count: nat
    var head: nat
    var tail: nat
    var ping: Ackmsg
    var ring: array<Ackmsg>
    var emap: map<PacketId, nat>
    var ackdone: seq<Ackmsg>

    ghost predicate Valid()
      reads this, ring
    {
      && IsPow2(size) && size == ring.Length && mask == size - 1
      && RingOk(ring[..], head, count, emap)
      && size > 0 && tail == Slot(size, head, count)
    }

    ghost function Items(): (items: seq<Ackmsg>)
      requires Valid()
      reads this, ring
    {
      Held(ring[..], head, count)
    }

    ghost function View(): Queue
      requires Valid()
      reads this, ring
    {
      Queue(Items(), ping)
    }

    constructor (n: nat)
      requires 0 < n <= Pow2(62)
      ensures Valid() && fresh(ring) && View() == EMPTY && n <= size
    {
      hide RingOk, Held, Slot;
      var m := n;
      PowerOfTwoTest(m);
      if !PowerOfTwo(m) {
        ghost var k := RoundUpIsLeast(m);
        m := RoundUpPowerOfTwo(m);
      }
      size, mask, count, head, tail := m, m - 1, 0, 0, 0;
      ring := new Ackmsg[m](_ => BLANK);
      ping := BLANK;
      emap := map[];
      ackdone := [];
      new;
      NoneHeld(ring[..]);
    }

    method Increment(n: nat) returns (r: nat)
      requires Valid()
      ensures r == Slot(size, n, 1)
    {
      ghost var k: nat :| size == Pow2(k);
      MaskIsRemainder(n + 1, k);
      r := BitAnd(n + 1, mask);
    }

    method Wait(msg: Msg, onComplete: Option<nat>) returns (err: bool)
      requires Valid()
      modifies this, ring
      ensures Valid() && (ring == old(ring) || fresh(ring))
      ensures View() == DoWait(old(View()), msg, onComplete)
      ensures err <==>
        (msg.mtype == PUBLISH && msg.qos == 0) || msg.mtype !in {PUBLISH, SUBSCRIBE, UNSUBSCRIBE, PINGREQ}
      ensures !err && msg.mtype != PINGREQ && msg.encodes && (forall m <- old(Items()) :: m.pktid != msg.pktid) ==>
        Items() == old(Items()) + [Ackmsg(msg.mtype, RESERVED, msg.pktid, msg.encoded, [], onComplete)]
      ensures !err && msg.mtype == PINGREQ ==> ping == Ackmsg(PINGREQ, RESERVED, 0, [], [], onComplete)
    {
      hide RingOk, Held;
      if msg.mtype == PUBLISH {
        if msg.qos == 0 {
          return true;
        }
        var _ := Insert(msg.pktid, msg, onComplete);
      } else if msg.mtype == SUBSCRIBE || msg.mtype == UNSUBSCRIBE {
        var _ := Insert(msg.pktid, msg, onComplete);
      } else if msg.mtype == PINGREQ {
        ping := Ackmsg(PINGREQ, RESERVED, 0, [], [], onComplete);
      } else {
        return true;
      }
      return false;
    }

    method Insert(pktid: PacketId, msg: Msg, onComplete: Option<nat>) returns (err: bool)
      requires Valid() && pktid == msg.pktid
      modifies this, ring
      ensures Valid() && (ring == old(ring) || fresh(ring)) && ping == old(ping)
      ensures Items() == if Accepts(old(Items()), msg) then old(Items()) + [Waiting(msg, onComplete)] else old(Items())
      ensures msg.encodes && (forall m <- old(Items()) :: m.pktid != pktid) ==>
        Items() == old(Items()) + [Ackmsg(msg.mtype, RESERVED, pktid, msg.encoded, [], onComplete)]
      ensures err <==> if Live(old(Items()), pktid) then msg.mtype != PUBLISH || msg.dup else !msg.encodes
    {
      hide RingOk, Held;
      if count == size {
        Grow();
      }
      AckRing.Lookup(ring[..], head, count, emap, pktid);
      Room();
      if pktid !in emap {
        var am := Ackmsg(msg.mtype, RESERVED, msg.pktid, msg.encoded, [], onComplete);
        if !msg.encodes {
          return true;
        }
        Append(am);
      } else {
        if msg.mtype != PUBLISH {
          return true;
        }
        if msg.dup {
          return true;
        }
      }
      return false;
    }

    lemma Room()
      requires Valid()
      ensures count <= size && head < size && |ring[..]| == size && |Items()| == count
    {
    }

    method Append(am: Ackmsg)
      requires Valid() && count < size && !Live(Items(), am.pktid)
      modifies this, ring
      ensures Valid() && ring == old(ring) && ping == old(ping)
      ensures Items() == old(Items()) + [am]
    {
      hide RingOk, Held, Slot;
      ghost var was := ring[..];
      Appended(was, head, count, emap, am);
      StepBelow(size, head, count);
      AddOne(size, head, count);
      var next := Increment(tail);
      ring[tail] := am;
      assert ring[..] == was[tail := am];
      emap := emap[am.pktid := tail];
      tail := next;
      count := count + 1;
    }

    /** removeHead */
    method RemoveHead() returns (err: bool)
      requires Valid()
      modifies this, ring
      ensures Valid() && ring == old(ring) && ping == old(ping) && ackdone == old(ackdone) && size == old(size)
      ensures err <==> |old(Items())| == 0
      ensures Items() == if err then old(Items()) else old(Items())[1..]
    {
      hide RingOk, Held, Slot;
      Room();
      if count == 0 {
        return true;
      }
      ghost var was := ring[..];
      Dropped(was, head, count, emap);
      var it := ring[head];
      var next := Increment(head);
      ring[head] := BLANK;
      assert ring[..] == was[head := BLANK];
      head := next;
      count := count - 1;
      emap := emap - {it.pktid};
      return false;
    }

    /** Doubles the ring, its entries moved to the front, and makes the map anew. */
    method Grow()
      requires Valid() && count == size
      modifies this
      ensures Valid() && fresh(ring) && size == 2 * old(size)
      ensures Items() == old(Items()) && count == old(count) && ping == old(ping)
    {
      hide RingOk, Held, Slot;
      Room();
      ghost var was := ring[..];
      var newsize := 2 * size;
      var newring := Unroll(newsize);
      ghost var items := Items();
      OnlyOnce();
      var newmap := MapOf(newring, count, items);
      Unrolled(was, head, count, newring[..], newmap);
      DoubledPower(size);
      size := newsize;
      mask := newsize - 1;
      ring := newring;
      head := 0;
      tail := count;
      emap := newmap;
    }

    lemma OnlyOnce()
      requires Valid()
      ensures OneEach(Items())
    {
    }

    method Unroll(newsize: nat) returns (newring: array<Ackmsg>)
      requires Valid() && count == size && newsize == 2 * size
      ensures fresh(newring) && newring.Length == newsize && newring[..count] == Items()
    {
      hide RingOk, Held;
      Room();
      StepBelow(size, head, count);
      newring := new Ackmsg[newsize](_ => BLANK);
      if tail > head {
        forall i | 0 <= i < tail - head { newring[i] := ring[head + i]; }
      } else {
        forall i | 0 <= i < size - head { newring[i] := ring[head + i]; }
        forall i | 0 <= i < tail { newring[size - head + i] := ring[i]; }
      }
      Copied(ring[..], head, tail, newring[..]);
    }

    static method MapOf(newring: array<Ackmsg>, n: nat, ghost items: seq<Ackmsg>) returns (newmap: map<PacketId, nat>)
      requires n <= newring.Length && newring[..n] == items && OneEach(items)
      ensures forall j :: 0 <= j < n ==> newring[j].pktid in newmap && newmap[newring[j].pktid] == j
      ensures forall id :: id in newmap ==> Live(items, id)
    {
      newmap := map[];
      var i := 0;
      while i < n
        invariant i <= n
        invariant forall j :: 0 <= j < i ==> items[j].pktid in newmap && newmap[items[j].pktid] == j
        invariant forall id :: id in newmap ==> Live(items, id)
      {
        FindsIt(items, i);
        newmap := newmap[newring[i].pktid := i];
        i := i + 1;
      }
    }

    method Ack(msg: Msg) returns (err: bool)
      requires Valid()
      modifies this, ring
      ensures Valid() && ring == old(ring)
      ensures View() == DoAck(old(View()), msg)
      ensures err <==>
        if msg.mtype in {PUBACK, PUBREC, PUBREL, PUBCOMP, SUBACK, UNSUBACK} then
          Live(old(Items()), msg.pktid) && !msg.encodes
        else msg.mtype != PINGRESP
    {
      hide RingOk, Held;
      AckRing.Lookup(ring[..], head, count, emap, msg.pktid);
      Room();
      if IsAck(msg.mtype) {
        if msg.pktid in emap {
          var i := emap[msg.pktid];
          SetAck(i, msg);
          if !msg.encodes {
            return true;
          }
        }
      } else if msg.mtype == PINGRESP {
        if ping.mtype == PINGREQ {
          ping := ping.(state := PINGRESP);
        }
      } else {
        return true;
      }
      return false;
    }

    method SetAck(i: nat, msg: Msg)
      requires Valid() && msg.pktid in emap && i == emap[msg.pktid]
      modifies ring
      ensures Valid()
      ensures var items := old(Items()); var k := Find(items, msg.pktid);
        k < |items| && Items() == items[k := items[k].(state := msg.mtype, ackbuf := msg.encoded)]
    {
      hide RingOk, Held, Slot;
      AckRing.Lookup(ring[..], head, count, emap, msg.pktid);
      Room();
      ghost var was, k := ring[..], Find(Items(), msg.pktid);
      SlotOf(was, head, count, k);
      ghost var m := ring[i].(state := msg.mtype, ackbuf := msg.encoded);
      SetOk(was, head, count, emap, k, m);
      ring[i] := ring[i].(state := msg.mtype, ackbuf := msg.encoded);
      assert ring[..] == was[i := m];
    }

    method Acked() returns (done: seq<Ackmsg>)
      requires Valid()
      modifies this, ring
      ensures Valid() && ring == old(ring)
      ensures done == Released(old(View())) && ackdone == done
      ensures View() == DoAcked(old(View()))
      ensures forall m <- done :: m.state in {PUBACK, PUBREL, PUBCOMP, SUBACK, UNSUBACK, PINGRESP}
      ensures Items() == [] || Items()[0].state !in {PUBACK, PUBREL, PUBCOMP, SUBACK, UNSUBACK}
    {
      hide RingOk, Held, Slot;
      ghost var q := View();
      ackdone := [];
      if ping.state == PINGRESP {
        ackdone := ackdone + [ping];
        ping := BLANK;
      }
      ghost var n := 0;
      while count != 0
        invariant Valid() && ring == old(ring)
        invariant n <= |q.items| && Items() == q.items[n..]
        invariant forall i :: 0 <= i < n ==> Final(q.items[i].state)
        invariant ackdone == Pong(q) + q.items[..n]
        invariant ping == if q.ping.state == PINGRESP then BLANK else q.ping
        decreases |Items()|
      {
        Room();
        FirstSlot(ring[..], head, count);
        var first := ring[head];
        if !Final(first.state) {
          break;
        }
        ackdone := ackdone + [first];
        var _ := RemoveHead();
        n := n + 1;
      }
      Room();
      CompletedIs(q.items, n);
      FinalStates(q, n);
      hide Valid, Final, Completed;
      return ackdone;
    }
  }

  lemma FinalStates(q: Queue, n: nat)
    requires n <= |q.items| && forall i :: 0 <= i < n ==> Final(q.items[i].state)
    ensures forall m <- Pong(q) + q.items[..n] :: m.state in {PUBACK, PUBREL, PUBCOMP, SUBACK, UNSUBACK, PINGRESP}
  {
  }

  lemma NoneHeld(ring: seq<Ackmsg>)
    requires |ring| > 0
    ensures RingOk(ring, 0, 0, map[]) && Held(ring, 0, 0) == [] && Slot(|ring|, 0, 0) == 0
  {
  }

  lemma SlotOf(ring: seq<Ackmsg>, head: nat, count: nat, k: nat)
    requires |ring| > 0 && k < count
    ensures Slot(|ring|, head, k) < |ring| && ring[Slot(|ring|, head, k)] == Held(ring, head, count)[k]
  {
  }

  lemma AddOne(size: nat, head: nat, n: nat)
    requires size > 0
    ensures Slot(size, Slot(size, head, n), 1) == Slot(size, head, n + 1)
  {
    var q, r := (head + n) / size, (head + n) % size;
    var m, t := (r + 1) / size, (r + 1) % size;
    assert head + n == size * q + r && r + 1 == size * m + t;
    assert size * (q + m) == size * q + size * m;
    RemainderUnique(head + (n + 1), size, q + m, t);
  }

  lemma CompletedIs(items: seq<Ackmsg>, n: nat)
    requires n <= |items| && forall i :: 0 <= i < n ==> Final(items[i].state)
    requires n < |items| ==> !Final(items[n].state)
    ensures Completed(items) == n
  {
  }

  lemma DoubledPower(size: nat)
    requires IsPow2(size)
    ensures IsPow2(2 * size)
  {
    var k: nat :| size == Pow2(k);
    assert 2 * size == Pow2(k + 1);
  }
}
