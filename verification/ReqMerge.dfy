/**
  Request merging of req_merge.go. Every method is one critical section or one step of a
  call's goroutine between two of them, so that an interleaving is a sequence of method
  calls, and what each keeps holds in all of them. Calls and channels are named by the order
  in which they were made.
 */
module ReqMerge {
  /** How fn ended: it returned, it panicked, or it left the goroutine. */
  datatype Outcome = Returned(val: int, err: bool) | Panicked | Exited

  /** Ended: fn is over and the waiters are let go, the last critical section is to come. */
  datatype Phase = Running | Ended(out: Outcome) | Finished(out: Outcome)

  datatype Call = Call(key: string, phase: Phase, released: bool, dups: nat, chans: seq<nat>)

  datatype Result = Result(val: int, err: bool, dups: nat)

  /** Not finished and not released. */
  predicate Live(c: Call) {
    !c.phase.Finished? && !c.released
  }

  /** What each channel of a call has been sent: one result once the call is finished, if its
      fn returned. */
  function Delivered(c: Call): seq<Result> {
    match c.phase
    case Finished(Returned(v, e)) => [Result(v, e, c.dups)]
    case _ => []
  }

  /** The map holds exactly the live calls. */
  ghost predicate MapExact(m: map<string, nat>, calls: seq<Call>) {
    && (forall k <- m :: m[k] < |calls| && Live(calls[m[k]]) && calls[m[k]].key == k)
    && (forall c :: 0 <= c < |calls| && Live(calls[c]) ==> calls[c].key in m && m[calls[c].key] == c)
  }

  /** Every channel is registered once, on its owner. */
  ghost predicate Owned(calls: seq<Call>, owner: seq<nat>) {
    && (forall c :: 0 <= c < |calls| ==> Distinct(calls[c].chans))
    && (forall c, i :: 0 <= c < |calls| && 0 <= i < |calls[c].chans| ==>
         calls[c].chans[i] < |owner| && owner[calls[c].chans[i]] == c)
    && (forall ch :: 0 <= ch < |owner| ==> owner[ch] < |calls| && ch in calls[owner[ch]].chans)
  }

  ghost predicate Distinct(chans: seq<nat>) {
    forall i, j :: 0 <= i < j < |chans| ==> chans[i] != chans[j]
  }

  /** Each channel has got what it is due: one result if its call finished with fn having
      returned, else nothing. */
  ghost predicate SentRight(calls: seq<Call>, owner: seq<nat>, sent: seq<seq<Result>>) {
    && |owner| == |sent|
    && forall ch :: 0 <= ch < |sent| ==> owner[ch] < |calls| && sent[ch] == Delivered(calls[owner[ch]])
  }

  lemma MapKeeps(m: map<string, nat>, calls: seq<Call>, c: nat, call: Call)
    requires MapExact(m, calls) && c < |calls| && call.key == calls[c].key && Live(call) == Live(calls[c])
    ensures MapExact(m, calls[c := call])
  {
  }

  lemma MapAdds(m: map<string, nat>, calls: seq<Call>, call: Call)
    requires MapExact(m, calls) && call.key !in m && Live(call)
    ensures MapExact(m[call.key := |calls|], calls + [call])
  {
  }

  lemma MapDrops(m: map<string, nat>, calls: seq<Call>, c: nat, call: Call)
    requires MapExact(m, calls) && c < |calls| && call.key == calls[c].key && !Live(call)
    ensures MapExact(if Live(calls[c]) then m - {call.key} else m, calls[c := call])
  {
  }

  lemma OwnedKeeps(calls: seq<Call>, owner: seq<nat>, c: nat, call: Call)
    requires Owned(calls, owner) && c < |calls| && call.chans == calls[c].chans
    ensures Owned(calls[c := call], owner)
  {
  }

  /** One more channel, on this call. */
  lemma OwnedJoins(calls: seq<Call>, owner: seq<nat>, c: nat, call: Call)
    requires Owned(calls, owner) && c < |calls| && call.chans == calls[c].chans + [|owner|]
    ensures Owned(calls[c := call], owner + [c])
  {
  }

  lemma OwnedAdds(calls: seq<Call>, owner: seq<nat>, call: Call)
    requires Owned(calls, owner) && call.chans in {[], [|owner|]}
    ensures Owned(calls + [call], owner + if call.chans == [] then [] else [|calls|])
  {
  }

  lemma SentKeeps(calls: seq<Call>, owner: seq<nat>, sent: seq<seq<Result>>, c: nat, call: Call)
    requires SentRight(calls, owner, sent) && c < |calls| && Delivered(call) == Delivered(calls[c])
    ensures SentRight(calls[c := call], owner, sent)
  {
  }

  lemma SentJoins(calls: seq<Call>, owner: seq<nat>, sent: seq<seq<Result>>, c: nat, call: Call)
    requires SentRight(calls, owner, sent) && c < |calls| && Delivered(call) == Delivered(calls[c]) == []
    ensures SentRight(calls[c := call], owner + [c], sent + [[]])
  {
  }

  lemma SentAdds(calls: seq<Call>, owner: seq<nat>, sent: seq<seq<Result>>, call: Call)
    requires SentRight(calls, owner, sent) && Delivered(call) == []
    ensures SentRight(calls + [call], owner, sent)
    ensures SentRight(calls + [call], owner + [|calls|], sent + [[]])
  {
  }

  /** Right but for a call's own channels, of which so many have been sent to. */
  ghost predicate SentBut(calls: seq<Call>, owner: seq<nat>, sent: seq<seq<Result>>, c: nat, n: nat)
    requires c < |calls|
  {
    && |owner| == |sent| && n <= |calls[c].chans|
    && (forall ch :: 0 <= ch < |sent| && owner[ch] != c ==>
      owner[ch] < |calls| && sent[ch] == Delivered(calls[owner[ch]]))
    && (forall i :: 0 <= i < |calls[c].chans| ==>
         calls[c].chans[i] < |sent| && sent[calls[c].chans[i]] == if i < n then Delivered(calls[c]) else [])
  }

  lemma SentButOne(calls: seq<Call>, owner: seq<nat>, sent: seq<seq<Result>>, c: nat, over: Call)
    requires Owned(calls, owner) && SentRight(calls, owner, sent) && c < |calls|
    requires !calls[c].phase.Finished? && over.chans == calls[c].chans
    ensures SentBut(calls[c := over], owner, sent, c, 0)
    ensures Delivered(over) == [] ==> SentRight(calls[c := over], owner, sent)
  {
  }

  /** The next channel is the call's, holds nothing, and is no other's. */
  lemma SendNext(calls: seq<Call>, owner: seq<nat>, sent: seq<seq<Result>>, c: nat, i: nat)
    requires c < |calls| && i < |calls[c].chans| && Owned(calls, owner) && SentBut(calls, owner, sent, c, i)
    ensures var ch := calls[c].chans[i];
      && ch < |sent| && ch < |owner| && owner[ch] == c && sent[ch] == []
      && SentBut(calls, owner, sent[ch := Delivered(calls[c])], c, i + 1)
  {
  }

  lemma AllSent(calls: seq<Call>, owner: seq<nat>, sent: seq<seq<Result>>, c: nat)
    requires c < |calls| && Owned(calls, owner) && SentBut(calls, owner, sent, c, |calls[c].chans|)
    ensures SentRight(calls, owner, sent)
  {
  }

  /** Freeing a live call's key takes that call alone out of the map. */
  lemma KeysApart(m: map<string, nat>, calls: seq<Call>, c: nat)
    requires MapExact(m, calls) && c < |calls|
    ensures forall k <- m :: m[k] == c <==> Live(calls[c]) && k == calls[c].key
  {
  }

  class Group {
    var m: map<string, nat>
    var calls: seq<Call>
    var sent: seq<seq<Result>>  // what was sent on each channel
    var stuck: bool             // the lock is held for ever
    ghost var owner: seq<nat>   // the call each channel was registered on

    ghost predicate Valid()
      reads this
    {
      MapExact(m, calls) && Owned(calls, owner) && SentRight(calls, owner, sent)
    }

    constructor ()
      ensures Valid() && m == map[] && calls == [] && sent == [] && !stuck
    {
      m, calls, sent, stuck, owner := map[], [], [], false, [];
    }

    /** Do up to where it waits or calls fn. */
    method Do(key: string) returns (c: nat, leads: bool)
      requires Valid() && !stuck
      modifies this
      ensures Valid() && !stuck && sent == old(sent)
      ensures leads <==> key !in old(m)
      ensures m == old(m)[key := c]
      ensures !leads ==> c == old(m)[key] && calls == old(calls)[c := old(calls)[c].(dups := old(calls)[c].dups + 1)]
      ensures leads ==> c == |old(calls)| && calls == old(calls) + [Call(key, Running, false, 0, [])]
    {
      if key in m {
        c := m[key];
        var joined := calls[c].(dups := calls[c].dups + 1);
        Joins(c, joined);
        hide MapExact, Owned, SentRight;
        calls := calls[c := joined];
        return c, false;
      }
      var call := Call(key, Running, false, 0, []);
      MapAdds(m, calls, call);
      OwnedAdds(calls, owner, call);
      assert owner + [] == owner;
      SentAdds(calls, owner, sent, call);
      hide MapExact, Owned, SentRight;
      c := |calls|;
      calls := calls + [call];
      m := m[key := c];
      return c, true;
    }

    /** A request that joins a call changes none of what holds. */
    lemma Joins(c: nat, joined: Call)
      requires Valid() && c < |calls| && Live(calls[c]) && joined == calls[c].(dups := calls[c].dups + 1)
      ensures MapExact(m, calls[c := joined]) && Owned(calls[c := joined], owner) &&
        SentRight(calls[c := joined], owner, sent)
      ensures m[calls[c].key := c] == m
    {
      MapKeeps(m, calls, c, joined);
      OwnedKeeps(calls, owner, c, joined);
      SentKeeps(calls, owner, sent, c, joined);
    }

    /** DoChan, which hands out a channel either way. */
    method DoChan(key: string) returns (ch: nat, c: nat, leads: bool)
      requires Valid() && !stuck
      modifies this
      ensures Valid() && !stuck && ch == |old(sent)| && sent == old(sent) + [[]]
      ensures leads <==> key !in old(m)
      ensures m == old(m)[key := c] && owner == old(owner) + [c]
      ensures !leads ==> c == old(m)[key]
      ensures !leads ==> calls == old(calls)[c :=
        old(calls)[c].(dups := old(calls)[c].dups + 1, chans := old(calls)[c].chans + [ch])]
      ensures leads ==> c == |old(calls)| && calls == old(calls) + [Call(key, Running, false, 0, [ch])]
    {
      ch := |sent|;
      assert ch == |owner|;
      if key in m {
        c := m[key];
        var joined := Joined(calls[c], ch);
        MapKeeps(m, calls, c, joined);
        OwnedJoins(calls, owner, c, joined);
        SentJoins(calls, owner, sent, c, joined);
        hide MapExact, Owned, SentRight;
        assert m[key := c] == m;
        calls := calls[c := joined];
        owner, sent := owner + [c], sent + [[]];
        return ch, c, false;
      }
      var call := Call(key, Running, false, 0, [ch]);
      MapAdds(m, calls, call);
      OwnedAdds(calls, owner, call);
      SentAdds(calls, owner, sent, call);
      hide MapExact, Owned, SentRight;
      c := |calls|;
      calls := calls + [call];
      owner, sent := owner + [c], sent + [[]];
      m := m[key := c];
      return ch, c, true;
    }

    /** fn is over and the waiting Do's are let go; requests still join. */
    method FnEnds(c: nat, out: Outcome)
      requires Valid() && c < |calls| && calls[c].phase == Running
      modifies `calls
      ensures Valid() && calls == old(calls)[c := old(calls)[c].(phase := Ended(out))]
    {
      var ended := calls[c].(phase := Ended(out));
      MapKeeps(m, calls, c, ended);
      OwnedKeeps(calls, owner, c, ended);
      SentKeeps(calls, owner, sent, c, ended);
      hide MapExact, Owned, SentRight;
      calls := calls[c := ended];
    }

    /** The last critical section: the key is freed unless the call was released, and every
        channel is sent the result when fn returned. No newer call is ever taken out of the
        map. */
    method Finish(c: nat)
      requires Valid() && !stuck && c < |calls| && calls[c].phase.Ended?
      modifies this
      ensures Valid()
      ensures calls == old(calls)[c := old(calls)[c].(phase := Finished(old(calls)[c].phase.out))]
      ensures forall k <- old(m) :: old(m)[k] != c ==> k in m && m[k] == old(m)[k]
      ensures m.Keys <= old(m).Keys && forall k <- m :: m[k] != c
      ensures owner == old(owner) && |sent| == |old(sent)|
      ensures forall ch :: 0 <= ch < |sent| && owner[ch] != c ==> sent[ch] == old(sent)[ch]
      ensures stuck <==> calls[c].phase == Finished(Panicked) && calls[c].chans != []
    {
      var call := calls[c];
      var out := call.phase.out;
      var over := call.(phase := Finished(out));
      MapDrops(m, calls, c, over);
      OwnedKeeps(calls, owner, c, over);
      KeysApart(m, calls, c);
      SentButOne(calls, owner, sent, c, over);
      hide MapExact, Owned, SentRight;
      if !call.released {
        m := m - {call.key};
      }
      calls := calls[c := over];
      match out
      case Panicked =>
        if |call.chans| > 0 {
          stuck := true;
        }
      case Exited =>
      case Returned(v, e) =>
        SendAll(c, v, e);
    }

    /** The loop that sends to the channels, none of which holds anything yet. */
    method SendAll(c: nat, v: int, e: bool)
      requires Owned(calls, owner) && c < |calls| && calls[c].phase == Finished(Returned(v, e))
      requires SentBut(calls, owner, sent, c, 0)
      modifies `sent
      ensures SentRight(calls, owner, sent) && |sent| == |old(sent)|
      ensures forall ch :: 0 <= ch < |sent| && owner[ch] != c ==> sent[ch] == old(sent)[ch]
    {
      var chans := calls[c].chans;
      for i := 0 to |chans|
        invariant SentBut(calls, owner, sent, c, i) && |sent| == |old(sent)|
        invariant forall ch :: 0 <= ch < |sent| && owner[ch] != c ==> sent[ch] == old(sent)[ch]
      {
        SendNext(calls, owner, sent, c, i);
        hide SentBut, Owned;
        var ch := chans[i];
        sent := sent[ch := sent[ch] + [Result(v, e, calls[c].dups)]];
      }
      AllSent(calls, owner, sent, c);
    }

    /** Release: the next request for the key makes a new call. */
    method Release(key: string)
      requires Valid() && !stuck
      modifies this
      ensures Valid() && !stuck && m == old(m) - {key} && sent == old(sent)
      ensures calls ==
        if key in old(m) then old(calls)[old(m)[key] := old(calls)[old(m)[key]].(released := true)] else old(calls)
    {
      if key in m {
        var c := m[key];
        var released := calls[c].(released := true);
        MapDrops(m, calls, c, released);
        OwnedKeeps(calls, owner, c, released);
        SentKeeps(calls, owner, sent, c, released);
        hide MapExact, Owned, SentRight;
        calls := calls[c := released];
        m := m - {key};
      } else {
        assert m - {key} == m;
        m := m - {key};
      }
    }

    /** At most one call of a key is live at a time, so that until it is released or over
        every request for the key shares its fn. */
    lemma OneLiveCall(c: nat, d: nat)
      requires Valid() && c < |calls| && d < |calls|
      requires Live(calls[c]) && Live(calls[d]) && calls[c].key == calls[d].key
      ensures c == d
    {
    }

    /** When fn returns, every channel registered on the call has exactly one result, and it
        is fn's. */
    lemma OneResult(ch: nat)
      requires Valid() && ch < |sent|
      ensures |sent[ch]| == 1 <==> calls[owner[ch]].phase.Finished? && calls[owner[ch]].phase.out.Returned?
      ensures |sent[ch]| <= 1
      ensures |sent[ch]| == 1 ==> var c := calls[owner[ch]];
        sent[ch][0].val == c.phase.out.val && sent[ch][0].err == c.phase.out.err && sent[ch][0].dups == c.dups
    {
    }
  }

  function Joined(c: Call, ch: nat): Call {
    c.(dups := c.dups + 1, chans := c.chans + [ch])
  }

  /** What any goroutine may do next. */
  datatype Event =
    | EDo(key: string)
    | EDoChan(key: string)
    | EFnEnds(c: nat, out: Outcome)
    | EFinish(c: nat)
    | ERelease(key: string)

  /** Any interleaving of the goroutines' sections from an empty group; events that are not
      possible when their turn comes are passed over. */
  method Interleave(events: seq<Event>) returns (g: Group)
    ensures fresh(g) && g.Valid()
  {
    g := new Group();
    for i := 0 to |events|
      invariant g.Valid()
    {
      match events[i]
      case EDo(key) =>
        if !g.stuck { var _, _ := g.Do(key); }
      case EDoChan(key) =>
        if !g.stuck { var _, _, _ := g.DoChan(key); }
      case EFnEnds(c, out) =>
        if c < |g.calls| && g.calls[c].phase == Running { g.FnEnds(c, out); }
      case EFinish(c) =>
        if !g.stuck && c < |g.calls| && g.calls[c].phase.Ended? { g.Finish(c); }
      case ERelease(key) =>
        if !g.stuck { g.Release(key); }
    }
  }
}
