/**
  The send quota of section 4.9 of MQTT Version 5.0: Sign.ReqQuota and Sign.AddQuota of
  pipiline.go, each atomic access to the counter or the flag one step of a call.
 */
module Quota {
  /** How far a call has come. ReqQuota: past the flag, then past the counter when that was
      used up, then with the flag set. AddQuota: past the counter, then past the flag. */
  datatype Phase = Checked | Failed | Marked | Raised | Clearing

  /** The counter, the flag, the calls under way, and how many requests were granted and
      credits given so far. */
  datatype State = State(curr: int, beyond: bool, calls: map<nat, Phase>, grants: nat, credits: nat)

  datatype Step =
    | Check(id: nat)
    | Take(id: nat)
    | Mark(id: nat)
    | Reset(id: nat)
    | Put(id: nat)
    | Look(id: nat)
    | Clear(id: nat)

  function Start(quota: nat): State {
    State(quota, false, map[], 0, 0)
  }

  predicate Enabled(s: State, step: Step) {
    match step
    case Check(id) => id !in s.calls
    case Put(id) => id !in s.calls
    case Take(id) => id in s.calls && s.calls[id] == Checked
    case Mark(id) => id in s.calls && s.calls[id] == Failed
    case Reset(id) => id in s.calls && s.calls[id] == Marked
    case Look(id) => id in s.calls && s.calls[id] == Raised
    case Clear(id) => id in s.calls && s.calls[id] == Clearing
  }

  function Next(s: State, step: Step): State
    requires Enabled(s, step)
  {
    var id := step.id;
    match step
    case Check(_) => if s.beyond then s else s.(calls := s.calls[id := Checked])
    case Take(_) =>
      var cur := s.curr - 1;
      if cur < 0 then s.(curr := cur, calls := s.calls[id := Failed])
      else s.(curr := cur, calls := s.calls - {id}, grants := s.grants + 1)
    case Mark(_) => s.(beyond := true, calls := s.calls[id := Marked])
    case Reset(_) => s.(curr := 0, calls := s.calls - {id})
    case Put(_) =>
      var cur := s.curr + 1;
      s.(curr := cur, calls := if cur > 0 then s.calls[id := Raised] else s.calls, credits := s.credits + 1)
    case Look(_) => if s.beyond then s.(calls := s.calls[id := Clearing]) else s.(calls := s.calls - {id})
    case Clear(_) => s.(beyond := false, calls := s.calls - {id})
  }

  predicate Runnable(s: State, steps: seq<Step>)
    decreases |steps|
  {
    steps == [] || (Enabled(s, steps[0]) && Runnable(Next(s, steps[0]), steps[1..]))
  }

  function Run(s: State, steps: seq<Step>): State
    requires Runnable(s, steps)
    decreases |steps|
  {
    if steps == [] then s else Run(Next(s, steps[0]), steps[1..])
  }

  /** What the peer's receive maximum still allows. */
  function Allowed(s: State, quota: nat): int {
    quota + s.credits - s.grants
  }

  predicate Inv(s: State, quota: nat) {
    s.curr <= Allowed(s, quota) && 0 <= Allowed(s, quota)
  }

  /** In every interleaving of requests and credits the counter stays within what is allowed,
      so that no more requests are granted than the quota and the credits given. */
  lemma {:induction false} GrantsBounded(s: State, quota: nat, steps: seq<Step>)
    requires Inv(s, quota) && Runnable(s, steps)
    ensures Inv(Run(s, steps), quota)
    ensures Run(s, steps).grants <= quota + Run(s, steps).credits
    decreases |steps|
  {
    if steps != [] {
      GrantsBounded(Next(s, steps[0]), quota, steps[1..]);
    }
  }

  // ---------- exact at rest ----------

  predicate Refused(phase: Phase) {
    phase == Failed || phase == Marked
  }

  /** The refused requests between their two accesses to the counter. */
  function Pending(s: State): set<nat> {
    set id | id in s.calls && Refused(s.calls[id])
  }

  /** By how much the counter falls short of what is allowed, refused requests aside. */
  function Gap(s: State, quota: nat): int {
    Allowed(s, quota) - s.curr - |Pending(s)|
  }

  /** What the swaps of a run lose: each puts the counter at zero where giving back its own
      would have put it one above where it was. */
  function Lost(s: State, steps: seq<Step>): int
    requires Runnable(s, steps)
    decreases |steps|
  {
    if steps == [] then 0
    else (if steps[0].Reset? then s.curr + 1 else 0) + Lost(Next(s, steps[0]), steps[1..])
  }

  lemma PendingAfter(s: State, step: Step)
    requires Enabled(s, step)
    ensures Pending(Next(s, step)) ==
      if step.Take? && s.curr <= 0 then Pending(s) + {step.id}
      else if step.Reset? then Pending(s) - {step.id}
      else Pending(s)
    ensures step.Take? ==> step.id !in Pending(s)
    ensures step.Reset? ==> step.id in Pending(s)
  {
  }

  lemma GapAfter(s: State, step: Step, quota: nat)
    requires Enabled(s, step)
    ensures Gap(Next(s, step), quota) == Gap(s, quota) + if step.Reset? then s.curr + 1 else 0
  {
    PendingAfter(s, step);
    var before, after := Pending(s), Pending(Next(s, step));
    if step.Take? && s.curr <= 0 {
      assert |after| == |before| + 1;
    } else if step.Reset? {
      assert |after| == |before| - 1;
    }
    hide Pending;
  }

  /** In every interleaving the gap grows by what is lost, and by nothing else. */
  lemma {:induction false} GapIsLost(s: State, quota: nat, steps: seq<Step>)
    requires Runnable(s, steps)
    ensures Gap(Run(s, steps), quota) == Gap(s, quota) + Lost(s, steps)
    decreases |steps|
  {
    hide Gap, Enabled, Next;
    if steps != [] {
      GapAfter(s, steps[0], quota);
      GapIsLost(Next(s, steps[0]), quota, steps[1..]);
    }
  }

  /** With no call under way the counter falls short of what is allowed by just what was
      lost, and is exact if and only if the swaps made up for each other. */
  lemma ExactAtRest(quota: nat, steps: seq<Step>)
    requires Runnable(Start(quota), steps) && Run(Start(quota), steps).calls == map[]
    ensures var s, lost := Run(Start(quota), steps), Lost(Start(quota), steps);
      && s.curr == Allowed(s, quota) - lost && 0 <= lost
      && (s.curr == Allowed(s, quota) <==> lost == 0)
  {
    GapIsLost(Start(quota), quota, steps);
    GrantsBounded(Start(quota), quota, steps);
    assert Pending(Start(quota)) == {};
    assert Pending(Run(Start(quota), steps)) == {};
  }

  /** What a caller can see to: no credit is given while a refused request is between its
      accesses. */
  predicate NoCreditBetween(s: State, steps: seq<Step>)
    requires Runnable(s, steps)
    decreases |steps|
  {
    steps != [] ==> (steps[0].Put? ==> Pending(s) == {}) && NoCreditBetween(Next(s, steps[0]), steps[1..])
  }

  /** Exact but for the refused requests, during which nothing is allowed. */
  predicate Exact(s: State, quota: nat) {
    if Pending(s) == {} then s.curr == Allowed(s, quota) && s.curr >= 0
    else Allowed(s, quota) == 0 && s.curr <= 0
  }

  lemma ExactAfter(s: State, step: Step, quota: nat)
    requires Enabled(s, step) && Exact(s, quota) && (step.Put? ==> Pending(s) == {})
    ensures Exact(Next(s, step), quota)
  {
    PendingAfter(s, step);
    hide Pending;
  }

  /** Then no run loses anything: at rest the counter is what is allowed. */
  lemma {:induction false} NothingLost(s: State, quota: nat, steps: seq<Step>)
    requires Runnable(s, steps) && Exact(s, quota) && NoCreditBetween(s, steps)
    ensures Exact(Run(s, steps), quota)
    ensures Run(s, steps).calls == map[] ==> Run(s, steps).curr == Allowed(Run(s, steps), quota)
    decreases |steps|
  {
    hide Enabled, Next, Exact;
    if steps == [] {
      ExactIdle(s, quota);
    } else {
      ExactAfter(s, steps[0], quota);
      NothingLost(Next(s, steps[0]), quota, steps[1..]);
    }
  }

  lemma ExactIdle(s: State, quota: nat)
    requires Exact(s, quota)
    ensures s.calls == map[] ==> s.curr == Allowed(s, quota)
  {
    assert s.calls == map[] ==> Pending(s) == {};
  }

  // ---------- a lost credit ----------

  /** Calls 1 and 2 ask for a quota of one; the acknowledgement of the first comes while the
      second is between its two accesses to the counter. */
  const RACE := [Check(1), Take(1), Check(2), Take(2), Put(3), Mark(2), Reset(2)]

  lemma RaceRuns()
    ensures Runnable(Start(1), RACE)
    ensures var s := Run(Start(1), RACE); s.beyond && s.calls == map[] && s.grants == 1 && s.credits == 1 && s.curr == 0
  {
    var s0 := Start(1);
    var s1 := Next(s0, Check(1));
    var s2 := Next(s1, Take(1));
    assert s2 == State(0, false, map[], 1, 0);
    var s3 := Next(s2, Check(2));
    var s4 := Next(s3, Take(2));
    var s5 := Next(s4, Put(3));
    assert s5.curr == 0 && s5.calls == map[2 := Failed];
    var s6 := Next(s5, Mark(2));
    var s7 := Next(s6, Reset(2));
    assert s7 == State(0, true, map[], 1, 1);
    Unroll(s0, RACE, 7, [s0, s1, s2, s3, s4, s5, s6, s7]);
  }

  lemma {:induction false} Unroll(s: State, steps: seq<Step>, n: nat, states: seq<State>)
    requires n == |steps| && |states| == n + 1 && states[0] == s
    requires forall i :: 0 <= i < n ==> Enabled(states[i], steps[i]) && states[i + 1] == Next(states[i], steps[i])
    ensures Runnable(s, steps) && Run(s, steps) == states[n]
    decreases n
  {
    if n > 0 {
      Unroll(states[1], steps[1..], n - 1, states[1..]);
    }
  }

  /** With the flag set and no call under way no request is ever granted again until another
      credit comes. */
  lemma {:induction false} NothingUntilCredit(s: State, steps: seq<Step>)
    requires s.beyond && s.calls == map[] && Runnable(s, steps)
    requires forall i :: 0 <= i < |steps| ==> !steps[i].Put?
    ensures Run(s, steps) == s
    decreases |steps|
  {
    if steps != [] {
      NothingUntilCredit(Next(s, steps[0]), steps[1..]);
    }
  }

  /** So a quota that is fully paid back can be refused for ever: nothing is outstanding from
      which a credit could come. */
  lemma PaidBackYetRefused(later: seq<Step>)
    requires Runnable(Start(1), RACE) && Runnable(Run(Start(1), RACE), later)
    requires forall i :: 0 <= i < |later| ==> !later[i].Put?
    ensures var s := Run(Start(1), RACE);
      s.grants == s.credits && Allowed(s, 1) == 1 && Run(s, later) == s
  {
    RaceRuns();
    NothingUntilCredit(Run(Start(1), RACE), later);
  }

  // ---------- calls one at a time ----------

  datatype Counter = Counter(curr: int, beyond: bool)

  function CounterOf(s: State): Counter {
    Counter(s.curr, s.beyond)
  }

  /** The steps a call takes when no other comes in between. */
  function ReqSteps(s: State, id: nat): seq<Step> {
    if s.beyond then [Check(id)]
    else if s.curr > 0 then [Check(id), Take(id)]
    else [Check(id), Take(id), Mark(id), Reset(id)]
  }

  function AddSteps(s: State, id: nat): seq<Step> {
    if s.curr < 0 then [Put(id)]
    else if s.beyond then [Put(id), Look(id), Clear(id)]
    else [Put(id), Look(id)]
  }

  /** Between calls that do not overlap: the flag is up only with the counter at zero. */
  predicate Settled(c: Counter) {
    c.curr >= 0 && (c.beyond ==> c.curr == 0)
  }

  /** An uninterrupted request is granted exactly when the counter is above zero, and takes
      one only then. */
  lemma RequestAlone(s: State, id: nat)
    requires Settled(CounterOf(s)) && id !in s.calls
    ensures Runnable(s, ReqSteps(s, id))
    ensures var s' := Run(s, ReqSteps(s, id)); var granted := s.curr > 0;
      && s'.grants == s.grants + (if granted then 1 else 0) && s'.credits == s.credits
      && CounterOf(s') == (if granted then Counter(s.curr - 1, s.beyond) else Counter(0, true))
      && s'.calls == s.calls && Settled(CounterOf(s'))
  {
    var s1 := Next(s, Check(id));
    if s.beyond {
      Unroll(s, ReqSteps(s, id), 1, [s, s1]);
    } else {
      var s2 := Next(s1, Take(id));
      if s.curr > 0 {
        assert s2.calls == s.calls;
        Unroll(s, ReqSteps(s, id), 2, [s, s1, s2]);
      } else {
        RefusedAlone(s, id);
      }
    }
  }

  lemma RefusedAlone(s: State, id: nat)
    requires id !in s.calls && !s.beyond && s.curr == 0
    ensures var steps := [Check(id), Take(id), Mark(id), Reset(id)];
      Runnable(s, steps) && Run(s, steps) == s.(curr := 0, beyond := true)
  {
    var s1 := Next(s, Check(id));
    var s2 := Next(s1, Take(id));
    var s3 := Next(s2, Mark(id));
    var s4 := Next(s3, Reset(id));
    assert s4.calls == s.calls;
    Unroll(s, [Check(id), Take(id), Mark(id), Reset(id)], 4, [s, s1, s2, s3, s4]);
  }

  /** An uninterrupted credit adds one and takes the flag down. */
  lemma CreditAlone(s: State, id: nat)
    requires Settled(CounterOf(s)) && id !in s.calls
    ensures Runnable(s, AddSteps(s, id))
    ensures var s' := Run(s, AddSteps(s, id));
      && s'.credits == s.credits + 1 && s'.grants == s.grants && s'.calls == s.calls
      && CounterOf(s') == Counter(s.curr + 1, false) && Settled(CounterOf(s'))
  {
    var s1 := Next(s, Put(id));
    var s2 := Next(s1, Look(id));
    if s.beyond {
      var s3 := Next(s2, Clear(id));
      assert s3.calls == s.calls;
      Unroll(s, AddSteps(s, id), 3, [s, s1, s2, s3]);
    } else {
      assert s2.calls == s.calls;
      Unroll(s, AddSteps(s, id), 2, [s, s1, s2]);
    }
  }

  /** Sign, its calls not overlapping: the counter is at every moment exactly what is
      allowed. */
  class Sign {
    var quota: nat
    var currQuota: int
    var beyondQuota: bool
    ghost var grants: nat
    ghost var credits: nat

    ghost predicate Valid()
      reads this
    {
      Settled(Counter(currQuota, beyondQuota)) && currQuota == quota + credits - grants
    }

    constructor (quota: nat)
      ensures Valid() && this.quota == quota && grants == 0 && credits == 0
    {
      this.quota, currQuota, beyondQuota, grants, credits := quota, quota, false, 0, 0;
    }

    method ReqQuota() returns (ok: bool)
      requires Valid()
      modifies `currQuota, `beyondQuota, `grants
      ensures Valid() && ok == (old(currQuota) > 0)
      ensures grants == old(grants) + if ok then 1 else 0
      ensures beyondQuota == if ok then old(beyondQuota) else true
    {
      if beyondQuota {
        return false;
      }
      currQuota := currQuota - 1;
      if currQuota < 0 {
        beyondQuota := true;
        currQuota := 0;
        return false;
      }
      grants := grants + 1;
      return true;
    }

    method AddQuota()
      requires Valid()
      modifies `currQuota, `beyondQuota, `credits
      ensures Valid() && credits == old(credits) + 1 && currQuota == old(currQuota) + 1 && !beyondQuota
    {
      currQuota := currQuota + 1;
      if currQuota > 0 && beyondQuota {
        beyondQuota := false;
      }
      credits := credits + 1;
    }
  }
}
