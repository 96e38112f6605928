/**
  The ring and the map of the ack queue as values: what each change of a slot, of the ends
  and of the map does to the queue they hold.
 */
module AckRing {
  import opened Bits
  import opened Wrap
  import opened AckSpec

  /** The slot of the i-th entry. */
  function Slot(size: nat, head: nat, i: nat): nat
    requires size > 0
  {
    (head + i) % size
  }

  function Held(ring: seq<Ackmsg>, head: nat, count: nat): (items: seq<Ackmsg>)
    requires |ring| > 0
    ensures |items| == count
  {
    seq(count, i requires 0 <= i < count => ring[Slot(|ring|, head, i)])
  }

  /** The map holds exactly the live ids, each with its slot. */
  ghost predicate MapExact(ring: seq<Ackmsg>, head: nat, count: nat, emap: map<PacketId, nat>)
    requires |ring| > 0
  {
    && (forall i :: 0 <= i < count ==>
          Held(ring, head, count)[i].pktid in emap && emap[Held(ring, head, count)[i].pktid] == Slot(|ring|, head, i))
    && (forall id :: id in emap ==> Live(Held(ring, head, count), id))
  }

  ghost predicate RingOk(ring: seq<Ackmsg>, head: nat, count: nat, emap: map<PacketId, nat>) {
    && head < |ring| && count <= |ring|
    && OneEach(Held(ring, head, count))
    && MapExact(ring, head, count, emap)
  }

  lemma Lookup(ring: seq<Ackmsg>, head: nat, count: nat, emap: map<PacketId, nat>, id: PacketId)
    requires RingOk(ring, head, count, emap)
    ensures var items := Held(ring, head, count);
      && (id in emap <==> Live(items, id))
      && (id in emap ==> emap[id] == Slot(|ring|, head, Find(items, id)) < |ring|)
  {
  }

  lemma FirstSlot(ring: seq<Ackmsg>, head: nat, count: nat)
    requires head < |ring| && 0 < count
    ensures Held(ring, head, count)[0] == ring[head]
  {
  }

  lemma SlotsDiffer(size: nat, head: nat, i: nat, j: nat)
    requires i < size && j < size && i != j
    ensures Slot(size, head, i) != Slot(size, head, j)
  {
    SlotsApart(size, head + (if i < j then i else j), head + (if i < j then j else i));
  }

  lemma SetSlot(ring: seq<Ackmsg>, head: nat, count: nat, k: nat, m: Ackmsg)
    requires head < |ring| && k < count <= |ring|
    ensures Slot(|ring|, head, k) < |ring|
    ensures Held(ring[Slot(|ring|, head, k) := m], head, count) == Held(ring, head, count)[k := m]
  {
    forall j | 0 <= j < count && j != k ensures Slot(|ring|, head, j) != Slot(|ring|, head, k) {
      SlotsDiffer(|ring|, head, j, k);
    }
  }

  lemma SetOk(ring: seq<Ackmsg>, head: nat, count: nat, emap: map<PacketId, nat>, k: nat, m: Ackmsg)
    requires RingOk(ring, head, count, emap) && k < count
    requires m.pktid == Held(ring, head, count)[k].pktid
    ensures RingOk(ring[Slot(|ring|, head, k) := m], head, count, emap)
    ensures Held(ring[Slot(|ring|, head, k) := m], head, count) == Held(ring, head, count)[k := m]
  {
    SetSlot(ring, head, count, k, m);
    SameIdsLive(Held(ring, head, count), Held(ring, head, count)[k := m]);
  }

  lemma Appended(ring: seq<Ackmsg>, head: nat, count: nat, emap: map<PacketId, nat>, am: Ackmsg)
    requires RingOk(ring, head, count, emap) && count < |ring|
    requires !Live(Held(ring, head, count), am.pktid)
    ensures var slot := Slot(|ring|, head, count);
      && RingOk(ring[slot := am], head, count + 1, emap[am.pktid := slot])
      && Held(ring[slot := am], head, count + 1) == Held(ring, head, count) + [am]
  {
    var items := Held(ring, head, count);
    var slot := Slot(|ring|, head, count);
    SetSlot(ring, head, count + 1, count, am);
    assert Held(ring, head, count + 1)[count := am] == items + [am];
    AppendedLive(items, am);
    var emap' := emap[am.pktid := slot];
    forall i | 0 <= i < count + 1
      ensures (items + [am])[i].pktid in emap' && emap'[(items + [am])[i].pktid] == Slot(|ring|, head, i)
    {
      if i < count {
        assert items[i].pktid != am.pktid by { FindsIt(items, i); }
      }
    }
  }

  lemma DroppedHeld(ring: seq<Ackmsg>, head: nat, count: nat)
    requires head < |ring| && 0 < count <= |ring|
    ensures var next := Slot(|ring|, head, 1);
      && Held(ring[head := BLANK], next, count - 1) == Held(ring, head, count)[1..]
      && Slot(|ring|, next, count - 1) == Slot(|ring|, head, count)
  {
    var items, n, next := Held(ring, head, count), |ring|, Slot(|ring|, head, 1);
    var left := Held(ring[head := BLANK], next, count - 1);
    RemainderUnique(head, n, 0, head);
    StepOn(n, head, count - 1);
    forall j | 0 <= j < count - 1 ensures left[j] == items[j + 1] {
      StepOn(n, head, j);
      SlotsDiffer(n, head, 0, j + 1);
    }
  }

  lemma Dropped(ring: seq<Ackmsg>, head: nat, count: nat, emap: map<PacketId, nat>)
    requires RingOk(ring, head, count, emap) && 0 < count
    ensures var next := Slot(|ring|, head, 1);
      && RingOk(ring[head := BLANK], next, count - 1, emap - {ring[head].pktid})
      && Held(ring[head := BLANK], next, count - 1) == Held(ring, head, count)[1..]
      && Slot(|ring|, next, count - 1) == Slot(|ring|, head, count)
  {
    hide Slot, Held;
    var items, n, next := Held(ring, head, count), |ring|, Slot(|ring|, head, 1);
    var emap' := emap - {ring[head].pktid};
    FirstSlot(ring, head, count);
    DroppedHeld(ring, head, count);
    DroppedLive(items);
    StepBelow(n, head, 1);
    forall j | 0 <= j < count - 1
      ensures items[1..][j].pktid in emap' && emap'[items[1..][j].pktid] == Slot(n, next, j)
    {
      StepOn(n, head, j);
      assert items[1..][j] == items[j + 1];
    }
  }

  lemma StepBelow(size: nat, head: nat, i: nat)
    requires size > 0
    ensures Slot(size, head, i) < size
  {
  }

  /** A ring unrolled into a larger one, with its map made anew. */
  lemma Unrolled(ring: seq<Ackmsg>, head: nat, count: nat, larger: seq<Ackmsg>, emap: map<PacketId, nat>)
    requires |ring| > 0 && OneEach(Held(ring, head, count))
    requires count < |larger| && larger[..count] == Held(ring, head, count)
    requires forall i :: 0 <= i < count ==> larger[i].pktid in emap && emap[larger[i].pktid] == i
    requires forall id :: id in emap ==> Live(larger[..count], id)
    ensures RingOk(larger, 0, count, emap) && Held(larger, 0, count) == Held(ring, head, count)
    ensures Slot(|larger|, 0, count) == count
  {
    forall i | 0 <= i <= count ensures Slot(|larger|, 0, i) == i {
      RemainderUnique(i, |larger|, 0, i);
    }
    assert Held(larger, 0, count) == larger[..count];
  }

  /** The two copies of grow unroll a full ring. */
  lemma Copied(ring: seq<Ackmsg>, head: nat, tail: nat, larger: seq<Ackmsg>)
    requires head < |ring| && tail == Slot(|ring|, head, |ring|) && |larger| >= |ring|
    requires if tail > head then larger[..tail - head] == ring[head..tail]
             else larger[..|ring| - head] == ring[head..] && larger[|ring| - head..|ring| - head + tail] == ring[..tail]
    ensures larger[..|ring|] == Held(ring, head, |ring|)
  {
    var n := |ring|;
    RemainderUnique(head + n, n, 1, head);
    forall j | 0 <= j < n ensures larger[j] == Held(ring, head, n)[j] {
      WrapIndex(n, head, j);
      if head + j < n {
        assert larger[..n - head][j] == ring[head..][j];
      } else {
        assert larger[n - head..n - head + tail][j - (n - head)] == ring[..tail][j - (n - head)];
      }
    }
  }

  lemma AppendedLive(items: seq<Ackmsg>, am: Ackmsg)
    requires OneEach(items) && !Live(items, am.pktid)
    ensures OneEach(items + [am])
    ensures forall id :: Live(items + [am], id) <==> Live(items, id) || id == am.pktid
  {
    var more := items + [am];
    assert more[|items|] == am;
    forall id ensures Live(more, id) <==> Live(items, id) || id == am.pktid {
      assert forall i :: 0 <= i < |items| ==> more[i] == items[i];
    }
  }

  lemma DroppedLive(items: seq<Ackmsg>)
    requires OneEach(items) && items != []
    ensures OneEach(items[1..])
    ensures forall id :: Live(items[1..], id) <==> Live(items, id) && id != items[0].pktid
  {
  }

  lemma SameIdsLive(a: seq<Ackmsg>, b: seq<Ackmsg>)
    requires |a| == |b| && forall i :: 0 <= i < |a| ==> a[i].pktid == b[i].pktid
    ensures OneEach(a) ==> OneEach(b)
    ensures forall id :: Find(a, id) == Find(b, id)
  {
  }

  /** One slot on, then j more. */
  lemma StepOn(size: nat, head: nat, j: nat)
    requires size > 0
    ensures Slot(size, Slot(size, head, 1), j) == Slot(size, head, j + 1)
  {
    var q, r := (head + 1) / size, (head + 1) % size;
    var m, t := (r + j) / size, (r + j) % size;
    assert head + 1 == size * q + r && r + j == size * m + t;
    assert size * (q + m) == size * q + size * m;
    RemainderUnique(head + (j + 1), size, q + m, t);
  }
}
