/**
  When receiver and processor can block each other: ReadFrom waits for a free block, the
  processor for a whole packet, both on the same ring.
 */
module RingProgress {
  import opened Bytes
  import opened Ring

  /** The receiver in the loop of waitForWriteSpace, with no block free. */
  predicate ReceiverBlocked(s: State) {
    s.size > 0 && s.p == AtGate(Fill) && !Enabled(s, LoadCursor)
  }

  /** The processor in the loop of ReadWait(n), with fewer than n bytes there. */
  predicate ProcessorBlocked(s: State, n: nat) {
    s.size > 0 && s.c == CIdle && n <= s.size && !Enabled(s, CallWait(n))
  }

  predicate BothBlocked(s: State, n: nat) {
    ReceiverBlocked(s) && ProcessorBlocked(s, n)
  }

  /** A packet that fits beside a block less one never blocks both. */
  lemma NeverBothBlocked(s: State, n: nat)
    requires Inv(s) && n + BLOCK <= s.size + 1
    ensures !BothBlocked(s, n)
  {
  }

  // ---------- reaching the blocked state ----------

  /** What receiving leaves as it was. */
  predicate OnlyReceived(s: State, s': State, data: seq<Byte>) {
    && s'.stream == s.stream + data
    && s'.size == s.size && s'.cseq == s.cseq && s'.c == s.c && s'.delivered == s.delivered
  }

  lemma OneAct(s: State, a: Act)
    requires Inv(s) && Enabled(s, a)
    ensures Legal(s, [a]) && Run(s, [a]) == Step(s, a) && Inv(Step(s, a))
  {
    StepKeepsInv(s, a);
    assert [a][1..] == [] && Run(Step(s, a), []) == Step(s, a);
  }

  lemma Then(s: State, acts: seq<Act>, a: Act)
    requires Inv(s) && Legal(s, acts) && Inv(Run(s, acts)) && Enabled(Run(s, acts), a)
    ensures Legal(s, acts + [a]) && Run(s, acts + [a]) == Step(Run(s, acts), a) && Inv(Step(Run(s, acts), a))
  {
    OneAct(Run(s, acts), a);
    RunAppend(s, acts, [a]);
  }

  /** Getting past waitForWriteSpace, asked in `t`, when there is space. */
  lemma GetSpace(s: State, acts: seq<Act>, t: State, job: Job) returns (more: seq<Act>)
    requires Inv(s) && Legal(s, acts)
    requires Inv(t) && FitsJob(t, job) && !t.p.AtGate?
    requires Run(s, acts) == Ask(t, job) && t.pseq + Need(job) <= t.cseq + t.size
    ensures Legal(s, acts + more) && Inv(Run(s, acts + more))
    ensures Run(s, acts + more).p == Granted(t, job).p
    ensures OnlyReceived(t, Run(s, acts + more), []) && Run(s, acts + more).pseq == t.pseq
  {
    hide Inv, Legal, Run;
    AskKeeps(t, job);
    assert t.stream + [] == t.stream;
    if Run(s, acts).p.AtGate? {
      more := [LoadCursor];
      Then(s, acts, LoadCursor);
    } else {
      more := [];
      assert acts + [] == acts;
    }
  }

  lemma {:induction false} FillBytes(s: State, data: seq<Byte>) returns (acts: seq<Act>)
    requires Inv(s) && s.p.Filling? && |s.p.put| + |data| <= s.p.room
    ensures Legal(s, acts)
    ensures var t := Run(s, acts);
      Inv(t) && t.p == Filling(s.p.room, s.p.put + data) && t.pseq == s.pseq && OnlyReceived(s, t, [])
    decreases |data|
  {
    if data == [] {
      acts := [];
      assert s.p.put + [] == s.p.put && s.stream + [] == s.stream;
    } else {
      StepKeepsInv(s, FillByte(data[0]));
      var rest := FillBytes(Step(s, FillByte(data[0])), data[1..]);
      acts := [FillByte(data[0])] + rest;
      assert acts[1..] == rest;
      assert s.p.put + [data[0]] + data[1..] == s.p.put + data;
    }
  }

  /** The first half of a turn: waiting for space and filling the slice. */
  lemma ReceiveBytes(s: State, data: seq<Byte>) returns (acts: seq<Act>)
    requires Inv(s) && s.p == PIdle && s.pseq + BLOCK <= s.cseq + s.size
    requires |data| <= Min(BLOCK, s.size - s.pseq % s.size)
    ensures Legal(s, acts)
    ensures var t := Run(s, acts);
      Inv(t) && t.p.Filling? && t.p.put == data && t.pseq == s.pseq && OnlyReceived(s, t, [])
  {
    hide Legal, Run, Contents, ProducerOk, ConsumerOk;
    OneAct(s, CallReadFrom);
    var grant := GetSpace(s, [CallReadFrom], s, Fill);
    var a1 := [CallReadFrom] + grant;
    var fills := FillBytes(Run(s, a1), data);
    RunAppend(s, a1, fills);
    acts := a1 + fills;
    assert [] + data == data && s.stream + [] == s.stream;
  }

  /** The second half: the slice is committed. */
  lemma CommitBytes(s: State, data: seq<Byte>) returns (acts: seq<Act>)
    requires Inv(s) && s.p.Filling? && s.p.put == data && |data| > 0
    ensures Legal(s, acts)
    ensures var t := Run(s, acts); Inv(t) && t.p == PIdle && OnlyReceived(s, t, data)
  {
    hide Legal, Run, Contents, ConsumerOk;
    OneAct(s, FillEnd(|data|));
    var t0 := s.(p := Ready(data));
    SpaceAgain(s, t0, data);
    var grant := GetSpace(s, [FillEnd(|data|)], t0, Commit(data));
    var a1 := [FillEnd(|data|)] + grant;
    Then(s, a1, Publish);
    acts := a1 + [Publish];
    assert s.stream + [] == s.stream;
  }

  /** One turn of ReadFrom, receiving these bytes. */
  lemma ReceiveOnce(s: State, data: seq<Byte>) returns (acts: seq<Act>)
    requires Inv(s) && s.p == PIdle && s.pseq + BLOCK <= s.cseq + s.size
    requires 0 < |data| <= Min(BLOCK, s.size - s.pseq % s.size)
    ensures Legal(s, acts)
    ensures var t := Run(s, acts); Inv(t) && t.p == PIdle && OnlyReceived(s, t, data)
  {
    hide Inv, Legal, Run;
    var a := ReceiveBytes(s, data);
    var t := Run(s, a);
    var b := CommitBytes(t, data);
    RunAppend(s, a, b);
    acts := a + b;
    assert s.stream + [] == s.stream;
  }

  lemma SpaceAgain(t: State, t0: State, data: seq<Byte>)
    requires Inv(t) && t.p.Filling? && t.p.put == data && |data| > 0 && t0 == t.(p := Ready(data))
    ensures Inv(t0) && FitsJob(t0, Commit(data))
    ensures Step(t, FillEnd(|data|)) == Ask(t0, Commit(data))
    ensures t0.pseq + Need(Commit(data)) <= t0.cseq + t0.size
  {
    FewerStaged(t, Ready(data));
    assert t.p.put[..|data|] == data;
  }

  /** Receiving turn after turn, as long as a block is free before each. */
  lemma {:induction false} ReceiveAll(s: State, data: seq<Byte>) returns (acts: seq<Act>)
    requires Inv(s) && s.p == PIdle && s.pseq + |data| + BLOCK <= s.cseq + s.size + 1
    ensures Legal(s, acts)
    ensures var t := Run(s, acts); Inv(t) && t.p == PIdle && OnlyReceived(s, t, data)
    decreases |data|
  {
    hide Legal, Run, Contents, ProducerOk, ConsumerOk;
    if data == [] {
      acts := [];
      NoActs(s);
      assert s.stream + [] == s.stream;
    } else {
      var k := Min(|data|, Min(BLOCK, s.size - s.pseq % s.size));
      var first := ReceiveOnce(s, data[..k]);
      var t := Run(s, first);
      var rest := ReceiveAll(t, data[k..]);
      RunAppend(s, first, rest);
      acts := first + rest;
      assert data[..k] + data[k..] == data;
      assert s.stream + data[..k] + data[k..] == s.stream + data;
    }
  }

  lemma NoActs(s: State)
    requires Inv(s)
    ensures Legal(s, []) && Run(s, []) == s
  {
  }

  /** From any quiet moment with at most that much unread, the receiver can go on until it
      blocks with all but a block, less one byte, unread. */
  lemma ReceiveUntilBlocked(s: State, data: seq<Byte>) returns (acts: seq<Act>)
    requires Inv(s) && s.p == PIdle && s.pseq + |data| + BLOCK == s.cseq + s.size + 1
    ensures Legal(s, acts)
    ensures var t := Run(s, acts); Inv(t) && ReceiverBlocked(t) && OnlyReceived(s, t, data)
  {
    hide Legal, Run, Contents, ProducerOk, ConsumerOk;
    var first := ReceiveAll(s, data);
    Then(s, first, CallReadFrom);
    acts := first + [CallReadFrom];
  }

  /** The bound is exact: some interleaving blocks the receiver while the processor waits for n
      bytes, if and only if n exceeds the ring by more than a block less one. */
  lemma ProgressBound(buf: seq<Byte>, n: nat)
    requires |buf| >= BLOCK && n <= |buf|
    ensures (exists acts :: Legal(Init(buf), acts) && BothBlocked(Run(Init(buf), acts), n)) <==> n > |buf| - BLOCK + 1
  {
    var s := Init(buf);
    if n > |buf| - BLOCK + 1 {
      var data: seq<Byte> := seq(|buf| - BLOCK + 1, _ => 0);
      var acts := ReceiveUntilBlocked(s, data);
      assert BothBlocked(Run(s, acts), n);
    } else {
      forall acts | Legal(s, acts) ensures !BothBlocked(Run(s, acts), n) {
        RunKeepsInv(s, acts);
        NeverBothBlocked(Run(s, acts), n);
      }
    }
  }
}
