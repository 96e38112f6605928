/**
  Receiver and processor on one ring: ReadFrom on one side, the loop of peekMessageSize,
  peekMessage and ReadCommit on the other, in any interleaving of their steps.
 */
module Pipeline {
  import opened Bytes
  import opened Ring
  import opened RingProgress
  import opened Framing

  /** Where the processor is: peeking the size, waiting for the whole packet, or out of the
      loop with an error. */
  datatype Proc = Sizing(cnt: nat) | Fetching(total: nat) | Stopped

  /** `packets` are the packets processed and committed so far. */
  datatype Pipe = Pipe(ring: State, proc: Proc, packets: seq<Data>)

  datatype PAct =
    | Receive(a: Act)
    | Wait           // ReadWait, granted
    | Overflow       // ReadWait, asked for more than the ring
    | Look           // a byte of the peeked slice is looked at
    | Decide         // all are; the loop goes on

  predicate IsReceiverAct(a: Act) {
    a.CallReadFrom? || a.LoadCursor? || a.FillByte? || a.FillEnd? || a.Publish?
  }

  function Wanted(proc: Proc): nat {
    match proc
    case Sizing(cnt) => cnt
    case Fetching(total) => total
    case Stopped => 0
  }

  predicate PEnabled(s: Pipe, a: PAct)
    requires s.ring.size > 0
  {
    match a
    case Receive(act) => IsReceiverAct(act) && Enabled(s.ring, act)
    case Wait => !s.proc.Stopped? && Enabled(s.ring, CallWait(Wanted(s.proc)))
    case Overflow => !s.proc.Stopped? && s.ring.c == CIdle && Wanted(s.proc) > s.ring.size
    case Look => s.ring.c.Window? && Enabled(s.ring, TakeByte)
    case Decide =>
      s.ring.c.Window? && |s.ring.c.got| == s.ring.c.m && !s.proc.Stopped? && s.ring.c.m == Wanted(s.proc) > 0
                   && Enabled(s.ring, CallCommit(s.ring.c.m))
  }

  function PStep(s: Pipe, a: PAct): Pipe
    requires 0 < s.ring.size == |s.ring.buf| && PEnabled(s, a)
  {
    match a
    case Receive(act) => s.(ring := Step(s.ring, act))
    case Wait => s.(ring := Step(s.ring, CallWait(Wanted(s.proc))))
    case Overflow => s.(proc := Stopped)
    case Look => s.(ring := Step(s.ring, TakeByte))
    case Decide =>
      var got := s.ring.c.got;
      match s.proc
      case Sizing(cnt) =>
        var next :=
          if got[cnt - 1] < 0x80 then Fetching(Uvarint(got[1..]) + cnt)
          else if cnt + 1 > 5 then Stopped
          else Sizing(cnt + 1);
        s.(ring := Step(s.ring, Drop), proc := next)
      case Fetching(total) =>
        s.(ring := Step(s.ring, CallCommit(total)), proc := Sizing(2), packets := s.packets + [got])
  }

  /** The published bytes not yet committed. */
  function Unread(s: State): Data {
    if s.cseq <= |s.stream| then s.stream[s.cseq..] else []
  }

  /** What the processor knows of the unread bytes. */
  predicate Knows(proc: Proc, u: Data, size: nat) {
    match proc
    case Sizing(cnt) => cnt == 2 || (cnt <= 5 && Continued(u, cnt))
    case Fetching(total) => PeekSize(u) == Size(total)
    case Stopped => PeekSize(u) == TooLong || (PeekSize(u).Size? && PeekSize(u).total > size)
  }

  ghost predicate PInv(s: Pipe) {
    && Inv(s.ring) && s.ring.size > 5
    && (s.ring.c == CIdle || (s.ring.c.Window? && s.ring.c.m == Wanted(s.proc)))
    && Knows(s.proc, Unread(s.ring), s.ring.size)
    && AllFramed(s.packets)
    && Concat(s.packets) == s.ring.delivered
  }

  lemma KnowsMore(proc: Proc, u: Data, v: Data, size: nat)
    requires Knows(proc, u, size)
    ensures Knows(proc, u + v, size)
  {
    match proc {
      case Sizing(cnt) =>
      case Fetching(total) => PeekStable(u, v, 2);
      case Stopped => PeekStable(u, v, 2);
    }
  }

  lemma ReceiveKeeps(s: Pipe, a: Act)
    requires PInv(s) && IsReceiverAct(a) && Enabled(s.ring, a)
    ensures PInv(PStep(s, Receive(a)))
  {
    var r := Step(s.ring, a);
    StepKeepsInv(s.ring, a);
    StreamGrows(s.ring, a);
    ReceiverLeaves(s.ring, a);
    var v := r.stream[|s.ring.stream|..];
    assert Unread(r) == Unread(s.ring) + v;
    KnowsMore(s.proc, Unread(s.ring), v, s.ring.size);
  }

  lemma ReceiverLeaves(s: State, a: Act)
    requires Inv(s) && IsReceiverAct(a) && Enabled(s, a)
    ensures Step(s, a).cseq == s.cseq && Step(s, a).c == s.c && Step(s, a).delivered == s.delivered
  {
  }

  /** The window holds the first unread bytes. */
  lemma WindowIsUnread(s: State)
    requires Inv(s) && s.c.Window?
    ensures s.c.got <= Unread(s)
  {
  }

  lemma SizingKeeps(s: Pipe)
    requires PInv(s) && PEnabled(s, Decide) && s.proc.Sizing?
    ensures PInv(PStep(s, Decide))
  {
    hide Inv, Enabled, PeekFrom;
    var u, got, cnt := Unread(s.ring), s.ring.c.got, s.proc.cnt;
    WindowIsUnread(s.ring);
    DropKeeps(s.ring);
    HeaderByte(u, got, cnt);
  }

  lemma DropKeeps(s: State)
    requires Inv(s) && s.c.Window?
    ensures Enabled(s, Drop) && Inv(Step(s, Drop))
    ensures Step(s, Drop) == s.(c := CIdle) && s.cseq <= |s.stream|
  {
  }

  /** What the last byte of a peeked header says. */
  lemma HeaderByte(u: Data, got: Data, cnt: nat)
    requires 2 <= cnt <= 5 && |got| == cnt && got <= u && (cnt == 2 || Continued(u, cnt))
    ensures got[cnt - 1] < 0x80 ==> PeekSize(u) == Size(Uvarint(got[1..]) + cnt)
    ensures got[cnt - 1] >= 0x80 ==> if cnt == 5 then PeekSize(u) == TooLong else Continued(u, cnt + 1)
  {
    PeekPast(u, cnt);
    assert got[1..] == u[1..cnt] && got[cnt - 1] == u[cnt - 1];
  }

  lemma FetchingKeeps(s: Pipe)
    requires PInv(s) && PEnabled(s, Decide) && s.proc.Fetching?
    ensures PInv(PStep(s, Decide))
  {
    hide Inv, PeekFrom;
    var u, got, total := Unread(s.ring), s.ring.c.got, s.proc.total;
    WindowIsUnread(s.ring);
    CommitKeeps(s.ring, total);
    PeekPrefix(u, 2);
    assert u[..total] == got;
    PeekFramed(got, 2);
    ConcatSnoc(s.packets, got);
    assert got[..total] == got;
  }

  lemma CommitKeeps(s: State, k: nat)
    requires Inv(s) && Enabled(s, CallCommit(k))
    ensures Inv(Step(s, CallCommit(k))) && Step(s, CallCommit(k)).c == CIdle
    ensures Step(s, CallCommit(k)).cseq <= |s.stream|
    ensures Step(s, CallCommit(k)).delivered == s.delivered + s.c.got[..k]
  {
  }

  lemma PStepKeeps(s: Pipe, a: PAct)
    requires PInv(s) && PEnabled(s, a)
    ensures PInv(PStep(s, a)) && PStep(s, a).ring.size == s.ring.size
    ensures s.ring.stream <= PStep(s, a).ring.stream
  {
    hide PInv;
    match a {
      case Receive(act) => ReceiveKeeps(s, act); RingOf(s); StreamGrows(s.ring, act);
      case Wait => WaitKeeps(s);
      case Overflow => OverflowKeeps(s);
      case Look => LookKeeps(s);
      case Decide =>
        if s.proc.Sizing? { SizingKeeps(s); } else { FetchingKeeps(s); }
    }
  }

  lemma RingOf(s: Pipe)
    requires PInv(s)
    ensures Inv(s.ring)
  {
  }

  lemma WaitKeeps(s: Pipe)
    requires PInv(s) && PEnabled(s, Wait)
    ensures PInv(PStep(s, Wait))
  {
    StepKeepsInv(s.ring, CallWait(Wanted(s.proc)));
  }

  lemma LookKeeps(s: Pipe)
    requires PInv(s) && PEnabled(s, Look)
    ensures PInv(PStep(s, Look))
  {
    StepKeepsInv(s.ring, TakeByte);
  }

  lemma OverflowKeeps(s: Pipe)
    requires PInv(s) && PEnabled(s, Overflow)
    ensures PInv(PStep(s, Overflow))
  {
  }

  // ---------- runs ----------

  function Start(buf: Data): (s: Pipe)
    ensures |buf| > 5 ==> PInv(s)
  {
    Pipe(Init(buf), Sizing(2), [])
  }

  ghost predicate PLegal(s: Pipe, acts: seq<PAct>)
    requires PInv(s)
    decreases |acts|
  {
    acts == [] ||
    (PEnabled(s, acts[0]) &&
     (PStepKeeps(s, acts[0]);
      PLegal(PStep(s, acts[0]), acts[1..])))
  }

  ghost function PRun(s: Pipe, acts: seq<PAct>): Pipe
    requires PInv(s) && PLegal(s, acts)
    decreases |acts|
  {
    if acts == [] then s
    else
      PStepKeeps(s, acts[0]);
      PRun(PStep(s, acts[0]), acts[1..])
  }

  lemma {:induction false} PRunKeeps(s: Pipe, acts: seq<PAct>)
    requires PInv(s) && PLegal(s, acts)
    ensures PInv(PRun(s, acts)) && PRun(s, acts).ring.size == s.ring.size
    decreases |acts|
  {
    hide PStep, PEnabled;
    if acts != [] {
      PStepKeeps(s, acts[0]);
      PRunKeeps(PStep(s, acts[0]), acts[1..]);
    }
  }

  /** Whether the bytes published so far are the start of these packets. */
  ghost predicate Carries(s: State, sent: seq<Data>) {
    s.stream <= Concat(sent) && AllFramed(sent)
  }

  /** The next packet is larger than the ring. */
  predicate TooLarge(s: Pipe, sent: seq<Data>) {
    |s.packets| < |sent| && |sent[|s.packets|]| > s.ring.size
  }

  /** However the receiver splits a sequence of packets, in every interleaving the processor
      has extracted exactly a prefix of them, and leaves its loop only at one larger than the
      ring. */
  lemma Reframing(buf: Data, acts: seq<PAct>, sent: seq<Data>)
    requires |buf| > 5 && PLegal(Start(buf), acts)
    requires Carries(PRun(Start(buf), acts).ring, sent)
    ensures var s := PRun(Start(buf), acts);
      && |s.packets| <= |sent| && s.packets == sent[..|s.packets|]
      && (s.proc.Stopped? ==> TooLarge(s, sent))
  {
    PRunKeeps(Start(buf), acts);
    PacketsArePrefix(PRun(Start(buf), acts), sent);
  }

  lemma {:induction false} ConcatSplit(parts: seq<Data>, k: nat)
    requires k <= |parts|
    ensures Concat(parts) == Concat(parts[..k]) + Concat(parts[k..])
  {
    if k > 0 {
      ConcatSplit(parts[1..], k - 1);
      assert parts[..k][1..] == parts[1..][..k - 1] && parts[k..] == parts[1..][k - 1..];
      assert parts[0] + (Concat(parts[1..][..k - 1]) + Concat(parts[k..])) == Concat(parts[..k]) + Concat(parts[k..]);
    } else {
      assert parts[0..] == parts;
    }
  }

  lemma PacketsArePrefix(s: Pipe, sent: seq<Data>)
    requires PInv(s) && Carries(s.ring, sent)
    ensures |s.packets| <= |sent| && s.packets == sent[..|s.packets|]
    ensures Unread(s.ring) <= Concat(sent[|s.packets|..])
    ensures s.proc.Stopped? ==> TooLarge(s, sent)
  {
    var n := |s.packets|;
    assert s.ring.delivered <= s.ring.stream;
    OneCut(s.packets, sent);
    ConcatSplit(sent, n);
    var u, rest := Unread(s.ring), sent[n..];
    assert s.ring.stream == s.ring.delivered + u;
    assert u <= Concat(rest);
    if u != [] {
      assert rest != [] && Concat(rest) == rest[0] + Concat(rest[1..]);
      assert rest[0] == sent[n];
      PeekWithin(u, rest[0], Concat(rest[1..]));
    }
  }

  /** The processor in ReadWait with too little there. */
  predicate Waiting(s: Pipe) {
    s.ring.size > 0 && !s.proc.Stopped? && s.ring.c == CIdle && !PEnabled(s, Wait) && !PEnabled(s, Overflow)
  }

  /** Once everything sent is published, a processor that waits has extracted it all. */
  lemma AllExtracted(s: Pipe, sent: seq<Data>)
    requires PInv(s) && Carries(s.ring, sent) && s.ring.stream == Concat(sent)
    requires Waiting(s)
    ensures s.packets == sent
  {
    PacketsArePrefix(s, sent);
    var n := |s.packets|;
    var u, rest := Unread(s.ring), sent[n..];
    ConcatSplit(sent, n);
    assert s.ring.stream == s.ring.delivered + u;
    assert u == Concat(rest);
    if rest != [] {
      assert Concat(rest) == rest[0] + Concat(rest[1..]) && rest[0] == sent[n];
      WantedFits(s, rest[0], Concat(rest[1..]));
    }
    assert sent[..n] == sent;
  }

  /** Into a framed packet, the processor never wants more than the packet. */
  lemma WantedFits(s: Pipe, p: Data, rest: Data)
    requires PInv(s) && !s.proc.Stopped? && Framed(p) && Unread(s.ring) <= p + rest
    ensures Wanted(s.proc) <= |p|
  {
    var u := Unread(s.ring);
    PeekWithin(u, p, rest);
    FramedNonempty(p);
    if s.proc.Sizing? && s.proc.cnt > 2 {
      PeekPast(u, s.proc.cnt);
      if PeekSize(u).Size? {
        PeekPrefix(u, s.proc.cnt);
      }
    }
  }

  /** While every packet is at most a ring less a block plus one, the receiver never waits for
      a free block and the processor for bytes at the same time. */
  lemma NeverBothWait(s: Pipe, sent: seq<Data>)
    requires PInv(s) && Carries(s.ring, sent) && s.ring.size >= BLOCK + 4
    requires forall i :: 0 <= i < |sent| ==> |sent[i]| + BLOCK <= s.ring.size + 1
    ensures !(ReceiverBlocked(s.ring) && Waiting(s))
  {
    if Waiting(s) {
      PacketsArePrefix(s, sent);
      var u, rest := Unread(s.ring), sent[|s.packets|..];
      if rest == [] {
        assert u == [];
      } else {
        assert Concat(rest) == rest[0] + Concat(rest[1..]) && rest[0] == sent[|s.packets|];
        WantedFits(s, rest[0], Concat(rest[1..]));
      }
      NeverBothBlocked(s.ring, Wanted(s.proc));
    }
  }
}
