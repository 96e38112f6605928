/**
  The byte ring of buffer.go under concurrency: one producer and one consumer. Each step
  touches shared memory once, by a cursor load, a cursor store or one byte; only CallCommit
  loads the producer's cursor and stores the consumer's in one step, where the cursor loaded
  can only have grown by the time of the store. The producer goes by a stale copy of the
  consumer's cursor, its gate; the consumer by the producer's cursor as last loaded.
 */
module Ring {
  import opened Bytes
  import opened Wrap

  /** defaultReadBlockSize */
  const BLOCK := 1024

  /** What the producer waits for space for. */
  datatype Job =
    | Copy(data: seq<Byte>)     // Write
    | Fill                      // ReadFrom: a block, filled as far as the ring's end
    | Reserve(n: nat)           // WriteWait
    | Commit(data: seq<Byte>)   // WriteCommit of bytes already in place

  datatype Producer =
    | PIdle
    | AtGate(job: Job)                         // the loop of waitForWriteSpace
    | Putting(bytes: seq<Byte>, done: nat)     // ringCopy, so many bytes copied
    | Filling(room: nat, put: seq<Byte>)       // a slice of the ring being filled in place
    | Ready(bytes: seq<Byte>)                  // before the store of the cursor

  datatype Consumer =
    | CIdle
    | Reading(n: nat, got: seq<Byte>)          // Read, copying out
    | Window(m: nat, got: seq<Byte>)           // the slice of ReadPeek or ReadWait, as looked at so far

  /** `stream` is everything published, `delivered` everything read or committed as read. */
  datatype State = State(size: nat, buf: seq<Byte>, pseq: nat, cseq: nat, gate: nat,
                         p: Producer, c: Consumer, stream: seq<Byte>, delivered: seq<Byte>)

  datatype Act =
    | CallWrite(data: seq<Byte>) | CallReadFrom | CallWriteWait(n: nat)
    | LoadCursor | PutByte | FillByte(b: Byte) | FillEnd(k: nat) | Publish
    | CallRead(len: nat) | CallPeek(n: nat) | CallWait(n: nat)
    | TakeByte | ReadDone | CallCommit(k: nat) | Drop

  function Need(job: Job): nat {
    match job
    case Copy(data) => |data|
    case Fill => BLOCK
    case Reserve(n) => n
    case Commit(data) => |data|
  }

  function Min(a: nat, b: nat): nat {
    if a <= b then a else b
  }

  /** How many bytes Read copies, given the loaded cursor: its two branches. */
  function ReadCount(size: nat, cpos: nat, ppos: nat, len: nat): nat
    requires size > 0 && cpos < ppos
  {
    var cindex := cpos % size;
    if cpos + len < ppos then Min(len, size - cindex)
    else
      var b := ppos - cpos;
      if cindex + b < size then Min(len, b) else Min(len, size - cindex)
  }

  predicate Enabled(s: State, a: Act)
    requires s.size > 0
  {
    match a
    case CallWrite(_) => s.p == PIdle
    case CallReadFrom => s.p == PIdle
    case CallWriteWait(_) => s.p == PIdle
    case LoadCursor => s.p.AtGate? && s.pseq + Need(s.p.job) - s.size <= s.cseq
    case PutByte => s.p.Putting? && s.p.done < |s.p.bytes|
    case FillByte(_) => s.p.Filling? && |s.p.put| < s.p.room
    case FillEnd(k) => s.p.Filling? && k <= |s.p.put|
    case Publish => s.p.Ready? || (s.p.Putting? && s.p.done == |s.p.bytes|)
    case CallRead(_) => s.c == CIdle && s.cseq < s.pseq
    case CallPeek(n) => s.c == CIdle && n <= s.size && s.cseq < s.pseq
    case CallWait(n) => s.c == CIdle && n <= s.size && s.cseq + n <= s.pseq
    case TakeByte => (s.c.Reading? && |s.c.got| < s.c.n) || (s.c.Window? && |s.c.got| < s.c.m)
    case ReadDone => s.c.Reading? && |s.c.got| == s.c.n
    case CallCommit(k) => s.c.Window? && k <= |s.c.got| && s.cseq + k <= s.pseq
    case Drop => s.c.Window?
  }

  /** What follows waitForWriteSpace. */
  function Granted(s: State, job: Job): State
    requires s.size > 0
  {
    var pstart := s.pseq % s.size;
    match job
    case Copy(data) => s.(p := Putting(data, 0))
    case Fill => s.(p := Filling(Min(BLOCK, s.size - pstart), []))
    case Reserve(n) => s.(p := if pstart + n > s.size then PIdle else Filling(n, []))
    case Commit(data) => s.(p := Ready(data))
  }

  /** The head of waitForWriteSpace: by the gate alone, or to the loop. */
  function Ask(s: State, job: Job): State
    requires s.size > 0
  {
    if s.pseq + Need(job) - s.size > s.gate || s.gate > s.pseq then s.(p := AtGate(job)) else Granted(s, job)
  }

  function Put(s: State, i: nat, b: Byte): seq<Byte>
    requires 0 < s.size == |s.buf|
  {
    s.buf[(s.pseq + i) % s.size := b]
  }

  function Take(s: State, i: nat): Byte
    requires 0 < s.size == |s.buf|
  {
    s.buf[(s.cseq + i) % s.size]
  }

  function Step(s: State, a: Act): State
    requires 0 < s.size == |s.buf| && Enabled(s, a)
  {
    match a
    case CallWrite(data) => Ask(s, Copy(data))
    case CallReadFrom => Ask(s, Fill)
    case CallWriteWait(n) => Ask(s, Reserve(n))
    case LoadCursor => Granted(s.(gate := s.cseq), s.p.job)
    case PutByte => s.(buf := Put(s, s.p.done, s.p.bytes[s.p.done]), p := s.p.(done := s.p.done + 1))
    case FillByte(b) => s.(buf := Put(s, |s.p.put|, b), p := s.p.(put := s.p.put + [b]))
    case FillEnd(k) => if k == 0 then s.(p := PIdle) else Ask(s, Commit(s.p.put[..k]))
    case Publish =>
      s.(pseq := s.pseq + |s.p.bytes|, stream := s.stream + s.p.bytes, p := PIdle)
    case CallRead(len) => s.(c := Reading(ReadCount(s.size, s.cseq, s.pseq, len), []))
    case CallPeek(n) => s.(c := Window(Min(n, s.pseq - s.cseq), []))
    case CallWait(n) => s.(c := Window(n, []))
    case TakeByte =>
      var got := s.c.got + [Take(s, |s.c.got|)];
      s.(c := if s.c.Reading? then Reading(s.c.n, got) else Window(s.c.m, got))
    case ReadDone => s.(cseq := s.cseq + |s.c.got|, delivered := s.delivered + s.c.got, c := CIdle)
    case CallCommit(k) => s.(cseq := s.cseq + k, delivered := s.delivered + s.c.got[..k], c := CIdle)
    case Drop => s.(c := CIdle)
  }

  // ---------- safety ----------

  /** Bytes the producer has put into the ring ahead of its cursor. */
  function Staged(p: Producer): seq<Byte>
    requires p.Putting? ==> p.done <= |p.bytes|
  {
    match p
    case Putting(bytes, done) => bytes[..done]
    case Filling(_, put) => put
    case Ready(bytes) => bytes
    case AtGate(Commit(bytes)) => bytes
    case _ => []
  }

  /** How many bytes from its cursor on the producer may write. */
  function Grant(p: Producer): nat {
    match p
    case Putting(bytes, _) => |bytes|
    case Filling(room, _) => room
    case Ready(bytes) => |bytes|
    case AtGate(Commit(bytes)) => |bytes|
    case _ => 0
  }

  predicate Cursors(s: State) {
    && 0 < s.size == |s.buf|
    && s.cseq <= s.pseq <= s.cseq + s.size
    && s.gate <= s.cseq
    && |s.stream| == s.pseq
    && s.delivered == s.stream[..s.cseq]
  }

  predicate ProducerOk(s: State) {
    && (s.p.Putting? ==> s.p.done <= |s.p.bytes|)
    && |Staged(s.p)| <= Grant(s.p)
    && s.pseq + Grant(s.p) <= s.cseq + s.size
  }

  predicate ConsumerOk(s: State) {
    match s.c
    case CIdle => true
    case Reading(n, got) => |got| <= n && s.cseq + n <= |s.stream| && got == s.stream[s.cseq..s.cseq + |got|]
    case Window(m, got) => |got| <= m && s.cseq + m <= |s.stream| && got == s.stream[s.cseq..s.cseq + |got|]
  }

  /** The ring holds the unread bytes and, behind them, the staged ones. */
  predicate Contents(s: State)
    requires Cursors(s) && ProducerOk(s)
  {
    var held := s.stream + Staged(s.p);
    forall i :: s.cseq <= i < |held| ==> s.buf[i % s.size] == held[i]
  }

  predicate Inv(s: State) {
    Cursors(s) && ProducerOk(s) && ConsumerOk(s) && Contents(s)
  }

  function Init(buf: seq<Byte>): (s: State)
    ensures |buf| > 0 ==> Inv(s)
  {
    State(|buf|, buf, 0, 0, 0, PIdle, CIdle, [], [])
  }

  lemma PutKeeps(s: State, b: Byte)
    requires Inv(s) && |Staged(s.p)| < Grant(s.p)
    ensures var held := s.stream + Staged(s.p) + [b]; var buf := Put(s, |Staged(s.p)|, b);
      forall i :: s.cseq <= i < |held| ==> buf[i % s.size] == held[i]
  {
    var n := |Staged(s.p)|;
    var held := s.stream + Staged(s.p) + [b];
    var buf := Put(s, n, b);
    forall i | s.cseq <= i < |held| ensures buf[i % s.size] == held[i] {
      if i < s.pseq + n {
        SlotsApart(s.size, i, s.pseq + n);
      }
    }
  }

  lemma ReadCountFits(size: nat, cpos: nat, ppos: nat, len: nat)
    requires size > 0 && cpos < ppos
    ensures var n := ReadCount(size, cpos, ppos, len);
      n <= len && n <= ppos - cpos && n <= size - cpos % size && n in {len, ppos - cpos, size - cpos % size}
    ensures len > 0 ==> ReadCount(size, cpos, ppos, len) > 0
  {
  }

  /** Every step of either side keeps the invariant. */
  lemma StepKeepsInv(s: State, a: Act)
    requires Inv(s) && Enabled(s, a)
    ensures Inv(Step(s, a))
  {
    hide Inv, Step, Enabled;
    if IsProducerCall(a) {
      ProducerStep(s, a);
    } else if a.PutByte? || a.FillByte? {
      PutStep(s, a);
    } else if a.Publish? {
      PublishStep(s);
    } else {
      ConsumerStep(s, a);
    }
  }

  predicate IsProducerCall(a: Act) {
    a.CallWrite? || a.CallReadFrom? || a.CallWriteWait? || a.LoadCursor? || a.FillEnd?
  }

  predicate IsConsumerAct(a: Act) {
    a.CallRead? || a.CallPeek? || a.CallWait? || a.TakeByte? || a.ReadDone? || a.CallCommit? || a.Drop?
  }

  lemma ProducerStep(s: State, a: Act)
    requires Inv(s) && Enabled(s, a) && IsProducerCall(a)
    ensures Inv(Step(s, a))
  {
    hide Contents, Ask, Granted;
    match a {
      case CallWrite(data) => AskKeeps(s, Copy(data));
      case CallReadFrom => AskKeeps(s, Fill);
      case CallWriteWait(n) => AskKeeps(s, Reserve(n));
      case LoadCursor =>
        GateMoves(s);
        GrantKeeps(s.(gate := s.cseq), s.p.job);
      case FillEnd(k) =>
        FewerStaged(s, if k == 0 then PIdle else Ready(s.p.put[..k]));
        if k > 0 {
          AskKeeps(s.(p := Ready(s.p.put[..k])), Commit(s.p.put[..k]));
          AskTwice(s, Ready(s.p.put[..k]), Commit(s.p.put[..k]));
        }
    }
  }

  lemma GateMoves(s: State)
    requires Inv(s)
    ensures Inv(s.(gate := s.cseq))
  {
  }

  lemma AskTwice(s: State, p: Producer, job: Job)
    requires s.size > 0
    ensures Ask(s.(p := p), job) == Ask(s, job)
  {
  }

  /** A producer that has staged a prefix of the bytes and may write no more than before. */
  lemma FewerStaged(s: State, p: Producer)
    requires Inv(s) && (p.Putting? ==> p.done <= |p.bytes|)
    requires Staged(p) <= Staged(s.p) && |Staged(p)| <= Grant(p) <= Grant(s.p)
    ensures Inv(s.(p := p))
  {
  }

  /** A job for which nothing is staged, or just what is staged now. */
  predicate FitsJob(s: State, job: Job)
    requires Inv(s)
  {
    if job.Commit? then Staged(s.p) == job.data && Grant(s.p) == |job.data| else Staged(s.p) == []
  }

  lemma GrantKeeps(s: State, job: Job)
    requires Inv(s) && FitsJob(s, job) && s.pseq + Need(job) <= s.cseq + s.size
    ensures Inv(Granted(s, job))
  {
    hide Contents;
    var s' := Granted(s, job);
    assert s' == s.(p := s'.p) && Staged(s'.p) == Staged(s.p);
    SameStaged(s, s'.p);
  }

  lemma SameStaged(s: State, p: Producer)
    requires Inv(s) && (p.Putting? ==> p.done <= |p.bytes|)
    requires Staged(p) == Staged(s.p) && |Staged(p)| <= Grant(p)
    requires s.pseq + Grant(p) <= s.cseq + s.size
    ensures Inv(s.(p := p))
  {
  }

  lemma AskKeeps(s: State, job: Job)
    requires Inv(s) && FitsJob(s, job)
    ensures Inv(Ask(s, job))
  {
    hide Contents, Granted;
    if s.pseq + Need(job) - s.size > s.gate || s.gate > s.pseq {
      SameStaged(s, AtGate(job));
    } else {
      GrantKeeps(s, job);
    }
  }

  lemma PutStep(s: State, a: Act)
    requires Inv(s) && Enabled(s, a) && (a.PutByte? || a.FillByte?)
    ensures Inv(Step(s, a))
  {
    var s' := Step(s, a);
    var b := if a.PutByte? then s.p.bytes[s.p.done] else a.b;
    PutKeeps(s, b);
    assert Staged(s'.p) == Staged(s.p) + [b];
    assert s.stream + Staged(s.p) + [b] == s'.stream + Staged(s'.p);
  }

  lemma PublishStep(s: State)
    requires Inv(s) && Enabled(s, Publish)
    ensures Inv(Step(s, Publish))
  {
    var s' := Step(s, Publish);
    assert Staged(s.p) == s.p.bytes;
    assert s'.stream + Staged(s'.p) == s.stream + Staged(s.p);
    assert s'.stream[..s.cseq] == s.stream[..s.cseq];
    if s.c.Reading? {
      assert s'.stream[s.cseq..s.cseq + |s.c.got|] == s.stream[s.cseq..s.cseq + |s.c.got|];
    } else if s.c.Window? {
      assert s'.stream[s.cseq..s.cseq + |s.c.got|] == s.stream[s.cseq..s.cseq + |s.c.got|];
    }
  }

  lemma ConsumerStep(s: State, a: Act)
    requires Inv(s) && Enabled(s, a) && IsConsumerAct(a)
    ensures Inv(Step(s, a))
  {
    var s' := Step(s, a);
    if a.CallRead? {
      ReadCountFits(s.size, s.cseq, s.pseq, a.len);
    } else if a.TakeByte? {
      var n := |s.c.got|;
      assert Take(s, n) == s.stream[s.cseq + n];
    } else if a.ReadDone? {
      assert s'.delivered == s.stream[..s'.cseq];
    } else if a.CallCommit? {
      assert s.c.got[..a.k] == s.stream[s.cseq..s.cseq + a.k];
      assert s'.delivered == s.stream[..s'.cseq];
    }
  }

  /** No step changes a byte that is still unread after it. */
  lemma UnreadUntouched(s: State, a: Act, i: nat)
    requires Inv(s) && Enabled(s, a)
    requires Step(s, a).cseq <= i < s.pseq
    ensures Step(s, a).buf[i % s.size] == s.buf[i % s.size] == s.stream[i]
  {
    hide Contents, ProducerOk, ConsumerOk, Step, Enabled;
    StreamGrows(s, a);
    StepKeepsInv(s, a);
    ContentsAt(s, i);
    ContentsAt(Step(s, a), i);
  }

  lemma ContentsAt(s: State, i: nat)
    requires Inv(s) && s.cseq <= i < s.pseq
    ensures s.buf[i % s.size] == s.stream[i]
  {
  }

  lemma StreamGrows(s: State, a: Act)
    requires Inv(s) && Enabled(s, a)
    ensures s.stream <= Step(s, a).stream && Step(s, a).size == s.size
    ensures s.cseq <= Step(s, a).cseq && s.pseq <= Step(s, a).pseq
  {
  }

  // ---------- runs ----------

  predicate Legal(s: State, acts: seq<Act>)
    requires Inv(s)
    decreases |acts|
  {
    acts == [] ||
    (Enabled(s, acts[0]) &&
     (StepKeepsInv(s, acts[0]);
      Legal(Step(s, acts[0]), acts[1..])))
  }

  function Run(s: State, acts: seq<Act>): State
    requires Inv(s) && Legal(s, acts)
    decreases |acts|
  {
    if acts == [] then s
    else
      StepKeepsInv(s, acts[0]);
      Run(Step(s, acts[0]), acts[1..])
  }

  lemma {:induction false} RunKeepsInv(s: State, acts: seq<Act>)
    requires Inv(s) && Legal(s, acts)
    ensures Inv(Run(s, acts)) && Run(s, acts).size == s.size
    ensures s.stream <= Run(s, acts).stream
    decreases |acts|
  {
    if acts != [] {
      StepKeepsInv(s, acts[0]);
      StreamGrows(s, acts[0]);
      RunKeepsInv(Step(s, acts[0]), acts[1..]);
    }
  }

  /** In every interleaving from an empty ring the cursors stay within one ring of each
      other, the gate never passes the consumer, and what is delivered is a prefix of what
      was published. */
  lemma EveryRunIsFifo(buf: seq<Byte>, acts: seq<Act>)
    requires |buf| > 0 && Legal(Init(buf), acts)
    ensures var s := Run(Init(buf), acts);
      && 0 <= s.pseq - s.cseq <= |buf|
      && s.gate <= s.cseq
      && |s.stream| == s.pseq && |s.delivered| == s.cseq
      && s.delivered <= s.stream
  {
    RunKeepsInv(Init(buf), acts);
  }

  lemma {:induction false} RunAppend(s: State, a: seq<Act>, b: seq<Act>)
    requires Inv(s) && Legal(s, a) && Inv(Run(s, a)) && Legal(Run(s, a), b)
    ensures Legal(s, a + b) && Run(s, a + b) == Run(Run(s, a), b)
    decreases |a|
  {
    if a == [] {
      assert a + b == b;
    } else {
      StepKeepsInv(s, a[0]);
      RunAppend(Step(s, a[0]), a[1..], b);
      assert (a + b)[0] == a[0] && (a + b)[1..] == a[1..] + b;
    }
  }
}
