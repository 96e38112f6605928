/**
  The lease lock of mysql.go: one row of si_lock, statements that each take effect at once,
  and nodes that read the clock before a statement and are overtaken by others in between.
 */
module Lease {
  import opened Options

  /** The settings all nodes share. The database counts the rows an update finds, or, as is
      MySQL's default, those it changes. */
  datatype Cfg = Cfg(timeOut: nat, addLive: nat, foundRows: bool)

  datatype Held = Held(belong: string, time: int)

  /** The table's one possible row, the clock, each node's last reading of it, and until when
      each node's last success protects it (bookkeeping of the proof, read by no step). */
  datatype State = State(row: Option<Held>, clock: int, stamps: map<string, int>, leases: map<string, int>)

  datatype Step =
    | Tick(d: nat)
    | ReadClock(node: string)
    | DeleteStale(node: string)
    | Insert(node: string)
    | Renew(node: string)

  /** A node reads the clock before it issues a statement. */
  predicate Enabled(s: State, step: Step) {
    step.Tick? || step.ReadClock? || step.node in s.stamps
  }

  /** Whether a statement reports an effect: rows deleted, inserted or updated. An update to
      the value a row has already may report none, and leaves the row as it is. */
  predicate Succeeds(s: State, step: Step, cfg: Cfg)
    requires Enabled(s, step)
  {
    match step
    case DeleteStale(n) => s.row.Some? && s.stamps[n] - s.row.value.time > cfg.timeOut
    case Insert(n) => s.row == None
    case Renew(n) =>
      && s.row.Some? && s.row.value.belong == n
      && (cfg.foundRows || s.row.value.time != s.stamps[n] + cfg.addLive)
    case _ => true
  }

  function Next(s: State, step: Step, cfg: Cfg): State
    requires Enabled(s, step)
  {
    if !Succeeds(s, step, cfg) then s
    else match step
      case Tick(d) => s.(clock := s.clock + d)
      case ReadClock(n) => s.(stamps := s.stamps[n := s.clock])
      case DeleteStale(_) => s.(row := None)
      case Insert(n) => s.(row := Some(Held(n, s.stamps[n])), leases := s.leases[n := s.stamps[n] + cfg.timeOut])
      case Renew(n) =>
        var time := s.stamps[n] + cfg.addLive;
        s.(row := Some(Held(n, time)), leases := s.leases[n := time + cfg.timeOut])
  }

  predicate Live(s: State, n: string) {
    n in s.leases && s.clock <= s.leases[n]
  }

  predicate Inv(s: State, cfg: Cfg) {
    && (forall n <- s.stamps :: s.stamps[n] <= s.clock)
    && (forall n <- s.leases :: n in s.stamps && s.leases[n] <= s.stamps[n] + cfg.addLive + cfg.timeOut)
    && (s.row.Some? ==> s.row.value.belong in s.stamps)
    && (forall n <- s.leases :: Live(s, n) ==>
         s.row.Some? && s.row.value.belong == n && s.leases[n] <= s.row.value.time + cfg.timeOut)
  }

  predicate Runnable(s: State, steps: seq<Step>, cfg: Cfg)
    decreases |steps|
  {
    steps == [] || (Enabled(s, steps[0]) && Runnable(Next(s, steps[0], cfg), steps[1..], cfg))
  }

  function Run(s: State, steps: seq<Step>, cfg: Cfg): State
    requires Runnable(s, steps, cfg)
    decreases |steps|
  {
    if steps == [] then s else Run(Next(s, steps[0], cfg), steps[1..], cfg)
  }

  /** Whether a node's insertion succeeds somewhere in the run. */
  predicate Acquires(s: State, steps: seq<Step>, cfg: Cfg, m: string)
    requires Runnable(s, steps, cfg)
    decreases |steps|
  {
    steps != [] &&
    ((steps[0] == Insert(m) && Succeeds(s, steps[0], cfg)) || Acquires(Next(s, steps[0], cfg), steps[1..], cfg, m))
  }

  lemma StepKeeps(s: State, step: Step, cfg: Cfg)
    requires Inv(s, cfg) && Enabled(s, step)
    ensures Inv(Next(s, step, cfg), cfg) && Next(s, step, cfg).clock >= s.clock
    ensures forall n <- s.leases :: Live(Next(s, step, cfg), n) ==>
      n in Next(s, step, cfg).leases && Next(s, step, cfg).leases[n] >= s.leases[n]
  {
  }

  /** At most one node is ever protected, whatever the interleaving of readings, statements
      and time. */
  lemma {:induction false} LeasesExclude(s: State, steps: seq<Step>, cfg: Cfg)
    requires Inv(s, cfg) && Runnable(s, steps, cfg)
    ensures Inv(Run(s, steps, cfg), cfg)
    ensures forall n, m :: Live(Run(s, steps, cfg), n) && Live(Run(s, steps, cfg), m) ==> n == m
    decreases |steps|
  {
    if steps != [] {
      StepKeeps(s, steps[0], cfg);
      LeasesExclude(Next(s, steps[0], cfg), steps[1..], cfg);
    }
  }

  /** Once LockAndLive succeeds on a reading T, no other node acquires the lock in any run
      that ends before the clock passes T + lockAddLive + lockTimeOut, and the lock stays
      the node's. */
  lemma RenewedExcludes(s: State, n: string, steps: seq<Step>, cfg: Cfg, m: string)
    requires Inv(s, cfg) && Enabled(s, Renew(n)) && Succeeds(s, Renew(n), cfg) && m != n
    requires Runnable(Next(s, Renew(n), cfg), steps, cfg)
    requires Run(Next(s, Renew(n), cfg), steps, cfg).clock <= s.stamps[n] + cfg.addLive + cfg.timeOut
    ensures !Acquires(Next(s, Renew(n), cfg), steps, cfg, m)
    ensures Run(Next(s, Renew(n), cfg), steps, cfg).row.Some?
    ensures Run(Next(s, Renew(n), cfg), steps, cfg).row.value.belong == n
  {
    StepKeeps(s, Renew(n), cfg);
    HolderStays(Next(s, Renew(n), cfg), n, s.stamps[n] + cfg.addLive + cfg.timeOut, steps, cfg, m);
  }

  lemma {:induction false} HolderStays(s: State, n: string, until: int, steps: seq<Step>, cfg: Cfg, m: string)
    requires Inv(s, cfg) && Runnable(s, steps, cfg) && m != n
    requires n in s.leases && until <= s.leases[n] && Run(s, steps, cfg).clock <= until
    ensures !Acquires(s, steps, cfg, m)
    ensures Run(s, steps, cfg).row.Some? && Run(s, steps, cfg).row.value.belong == n
    decreases |steps|
  {
    ClockGrows(s, steps, cfg);
    assert Live(s, n);
    if steps != [] {
      var s1 := Next(s, steps[0], cfg);
      StepKeeps(s, steps[0], cfg);
      ClockGrows(s1, steps[1..], cfg);
      assert n in s1.leases;
      HolderStays(s1, n, until, steps[1..], cfg, m);
    }
  }

  lemma {:induction false} ClockGrows(s: State, steps: seq<Step>, cfg: Cfg)
    requires Runnable(s, steps, cfg)
    ensures Run(s, steps, cfg).clock >= s.clock
    decreases |steps|
  {
    if steps != [] { ClockGrows(Next(s, steps[0], cfg), steps[1..], cfg); }
  }

  /** There is no lock, or its time is more than the time-out ago. */
  predicate Free(s: State, cfg: Cfg) {
    s.row == None || s.clock > s.row.value.time + cfg.timeOut
  }

  /** One undisturbed turn of Lock's loop. */
  function Attempt(n: string): seq<Step> {
    [ReadClock(n), DeleteStale(n), ReadClock(n), Insert(n)]
  }

  /** The bound is exact, and does not spare the holder: an undisturbed attempt succeeds if
      and only if there is no lock or its time is more than the time-out ago. */
  lemma AttemptSucceeds(s: State, n: string, cfg: Cfg)
    ensures Runnable(s, Attempt(n), cfg)
    ensures Acquires(s, Attempt(n), cfg, n) <==> s.row == None || s.clock > s.row.value.time + cfg.timeOut
  {
    var steps := Attempt(n);
    var s1 := Next(s, ReadClock(n), cfg);
    var s2 := Next(s1, DeleteStale(n), cfg);
    var s3 := Next(s2, ReadClock(n), cfg);
    assert steps[1..] == [DeleteStale(n), ReadClock(n), Insert(n)];
    assert steps[1..][1..] == [ReadClock(n), Insert(n)];
    assert steps[1..][1..][1..] == [Insert(n)];
    assert [Insert(n)][1..] == [];
    assert Runnable(s3, [Insert(n)], cfg);
    assert Runnable(s2, [ReadClock(n), Insert(n)], cfg);
    assert Runnable(s1, [DeleteStale(n), ReadClock(n), Insert(n)], cfg);
    assert Acquires(s3, [Insert(n)], cfg, n) <==> s3.row == None;
    assert Acquires(s2, [ReadClock(n), Insert(n)], cfg, n) <==> s3.row == None;
    assert Acquires(s1, [DeleteStale(n), ReadClock(n), Insert(n)], cfg, n) <==> s3.row == None;
  }

  /** A holder that renews to the very time its row has is told that it failed, where changed
      rows are counted. */
  lemma RenewedInVain(n: string)
    ensures var s := State(Some(Held(n, 15)), 10, map[n := 10], map[n := 20]); var cfg := Cfg(5, 5, false);
      Inv(s, cfg) && Enabled(s, Renew(n)) && !Succeeds(s, Renew(n), cfg) && Live(s, n)
  {
  }

  // ---------- the node's side ----------

  /** The table with everything that happens to it between a node's own steps. */
  class LockTable {
    const cfg: Cfg
    var s: State

    ghost predicate Valid()
      reads this
    {
      Inv(s, cfg)
    }

    constructor (cfg: Cfg, now: int)
      ensures Valid() && this.cfg == cfg && s == State(None, now, map[], map[])
    {
      this.cfg := cfg;
      s := State(None, now, map[], map[]);
    }

    method Do(step: Step) returns (ok: bool)
      requires Valid() && Enabled(s, step)
      modifies this
      ensures Valid() && s == Next(old(s), step, cfg) && ok == Succeeds(old(s), step, cfg)
      ensures forall n <- old(s).stamps :: n in s.stamps
    {
      StepKeeps(s, step, cfg);
      ok := Succeeds(s, step, cfg);
      s := Next(s, step, cfg);
    }

    /** Steps of other nodes and of the clock; they do nothing in this node's name. */
    method Others(steps: seq<Step>, me: string)
      requires Valid()
      modifies this
      ensures Valid()
      ensures forall n <- old(s).stamps :: n in s.stamps
      ensures me in old(s).stamps ==> s.stamps[me] == old(s).stamps[me]
      ensures me in old(s).leases ==> me in s.leases && s.leases[me] == old(s).leases[me]
      ensures steps == [] ==> s == old(s)
    {
      for i := 0 to |steps|
        invariant i == 0 ==> s == old(s)
        invariant Valid() && forall n <- old(s).stamps :: n in s.stamps
        invariant me in old(s).stamps ==> s.stamps[me] == old(s).stamps[me]
        invariant me in old(s).leases ==> me in s.leases && s.leases[me] == old(s).leases[me]
      {
        if Enabled(s, steps[i]) && (steps[i].Tick? || steps[i].node != me) {
          var _ := Do(steps[i]);
        }
      }
    }

    /** One turn of Lock's loop, the others acting before each statement: `found` is the row
        the deletion meets, `left` the one the insertion meets. The deletion takes a row
        away whose time is more than the time-out before the reading; the insertion succeeds
        exactly where there is none. */
    method Turn(me: string, before: seq<Step>, between: seq<Step>)
      returns (ok: bool, ghost found: Option<Held>, ghost left: Option<Held>)
      requires Valid()
      modifies this
      ensures Valid()
      ensures before == [] ==> found == old(s).row
      ensures between == [] ==>
        left == if found.Some? && old(s).clock > found.value.time + cfg.timeOut then None else found
      ensures ok <==> left == None
      ensures ok ==> me in s.stamps && s.row == Some(Held(me, s.stamps[me]))
      ensures ok ==> me in s.leases && s.leases[me] == s.stamps[me] + cfg.timeOut
      ensures !ok ==> s.row == left
      ensures before == [] && between == [] ==> s.clock == old(s).clock
    {
      var _ := Do(ReadClock(me));
      Others(before, me);
      found := s.row;
      var _ := Do(DeleteStale(me));
      var _ := Do(ReadClock(me));
      Others(between, me);
      left := s.row;
      ok := Do(Insert(me));
    }

    /** Lock: stale locks deleted, a row inserted, again from the start when that fails. The
        other nodes act before each statement; the loop is still running when they end. A
        free or stale lock is taken in the first turn if nobody acts in it, and one that is
        neither is never taken while nobody acts. */
    method Lock(me: string, env: seq<seq<Step>>) returns (locked: bool)
      requires Valid()
      modifies this
      ensures Valid()
      ensures locked ==> me in s.stamps && s.row == Some(Held(me, s.stamps[me]))
      ensures locked ==> me in s.leases && s.leases[me] == s.stamps[me] + cfg.timeOut
      ensures |env| >= 2 && env[0] == [] && env[1] == [] && Free(old(s), cfg) ==> locked
      ensures (forall k :: 0 <= k < |env| ==> env[k] == []) ==> (locked <==> |env| >= 2 && Free(old(s), cfg))
    {
      var i := 0;
      while i + 1 < |env|
        invariant Valid() && i <= |env|
        invariant i == 0 ==> s == old(s)
        invariant i > 0 ==> i >= 2 && !(env[0] == [] && env[1] == [] && Free(old(s), cfg))
        invariant (forall k :: 0 <= k < i ==> env[k] == []) ==> s.row == old(s).row && s.clock == old(s).clock
        decreases |env| - i
      {
        var ok, _, _ := Turn(me, env[i], env[i + 1]);
        if ok {
          return true;
        }
        i := i + 2;
      }
      return false;
    }

    /** LockAndLive: succeeds exactly when the row, as the others leave it, is still this
        node's and, if changed rows are counted, does not have the new time already; then it
        protects the node for the added time and the time-out from its reading. */
    method LockAndLive(me: string, others: seq<Step>) returns (ok: bool, ghost left: Option<Held>)
      requires Valid()
      modifies this
      ensures Valid()
      ensures var time := old(s).clock + cfg.addLive; var own := left.Some? && left.value.belong == me;
        && (ok <==> own && (cfg.foundRows || left.value.time != time))
        && s.row == (if own then Some(Held(me, time)) else left)
      ensures ok ==> me in s.leases && s.leases[me] == old(s).clock + cfg.addLive + cfg.timeOut
    {
      var _ := Do(ReadClock(me));
      Others(others, me);
      left := s.row;
      ok := Do(Renew(me));
    }
  }
}
