/**
  matchTopicS of share_topic_redis.go: the filters looked up for a published topic, made by
  turning a list round once for each level while it grows.
 */
module MatchTopics {
  import opened Bits
  import opened Paths
  import opened TopicLevels
  import opened TopicMatch

  // ---------- topics as strings and as levels ----------

  function Join(p: Path): string
    requires p != []
  {
    var n := |p| - 1;
    if n == 0 then p[0] else Join(p[..n]) + "/" + p[n]
  }

  predicate SlashFree(p: Path) {
    p != [] && forall i :: 0 <= i < |p| ==> '/' !in p[i]
  }

  lemma SplitAt(x: string, rest: string)
    requires '/' !in x
    ensures Split(x + "/" + rest) == [x] + Split(rest)
  {
    var all := x + "/" + rest;
    FirstSeparatorIsFirst(all, |x|);
    assert all[..|x|] == x && all[|x| + 1..] == rest;
  }

  lemma SplitOne(x: string)
    requires '/' !in x
    ensures Split(x) == [x]
  {
  }

  lemma {:induction false} SplitSnoc(a: string, b: string)
    requires '/' !in b
    ensures Split(a + "/" + b) == Split(a) + [b]
    decreases |a|
  {
    hide Split;
    var k := FirstSeparator(a);
    SplitOne(b);
    if k == |a| {
      SplitOne(a);
      SplitAt(a, b);
    } else {
      var x, r := a[..k], a[k + 1..];
      assert a == x + "/" + r;
      assert a + "/" + b == x + "/" + (r + "/" + b);
      SplitAt(x, r);
      SplitAt(x, r + "/" + b);
      SplitSnoc(r, b);
      assert [x] + (Split(r) + [b]) == [x] + Split(r) + [b];
    }
  }

  lemma {:induction false} SplitJoin(p: Path)
    requires SlashFree(p)
    ensures Split(Join(p)) == p
  {
    var n := |p| - 1;
    if n == 0 {
      FirstSeparatorIsFirst(p[0], |p[0]|);
      assert p == [p[0]];
    } else {
      SplitJoin(p[..n]);
      SplitSnoc(Join(p[..n]), p[n]);
      assert p == p[..n] + [p[n]];
    }
  }

  lemma {:induction false} JoinCons(x: string, p: Path)
    requires p != []
    ensures Join([x] + p) == x + "/" + Join(p)
  {
    var n := |p| - 1;
    if n == 0 {
      assert ([x] + p)[..1] == [x];
    } else {
      JoinCons(x, p[..n]);
      assert ([x] + p)[..n + 1] == [x] + p[..n];
    }
  }

  lemma {:induction false} JoinSplit(f: string)
    ensures Join(Split(f)) == f && SlashFree(Split(f))
    decreases |f|
  {
    var k := FirstSeparator(f);
    if k < |f| {
      JoinSplit(f[k + 1..]);
      JoinCons(f[..k], Split(f[k + 1..]));
    }
  }

  // ---------- one turn of the list ----------

  predicate Ended(p: Path) {
    p != [] && p[|p| - 1] == MWC
  }

  /** What a filter becomes at the next level. */
  function Grow(p: Path, v: string): seq<Path> {
    if Ended(p) then [p] else [p + [v], p + [SWC], p + [MWC]]
  }

  function Pass(paths: seq<Path>, v: string): seq<Path> {
    if paths == [] then []
    else Pass(paths[..|paths| - 1], v) + Grow(paths[|paths| - 1], v)
  }

  function Open(paths: seq<Path>): nat {
    if paths == [] then 0
    else Open(paths[..|paths| - 1]) + if Ended(paths[|paths| - 1]) then 0 else 1
  }

  predicate Distinct(paths: seq<Path>) {
    forall i, j :: 0 <= i < j < |paths| ==> paths[i] != paths[j]
  }

  /** The filters wanted: the first level kept, and matching by section 4.7 with '#' standing
      for one level or more. */
  predicate Wanted(p: Path, levels: Path) {
    p != [] && levels != [] && p[0] == levels[0] && |p| <= |levels| && Matches(p, levels)
  }

  /** A level of a topic name. */
  predicate NameLevel(level: string) {
    '/' !in level && '+' !in level && '#' !in level
  }

  predicate NameLevels(levels: Path) {
    levels != [] && forall i :: 0 <= i < |levels| ==> NameLevel(levels[i])
  }

  /** The list after some levels: every wanted filter once and nothing else; half of them and
      one more go on. */
  ghost predicate Complete(paths: seq<Path>, levels: Path) {
    && Distinct(paths)
    && Members(paths, levels)
    && levels != [] && Open(paths) == Pow2(|levels| - 1) && |paths| == 2 * Open(paths) - 1
  }

  ghost predicate Members(paths: seq<Path>, levels: Path) {
    forall p :: p in paths <==> Wanted(p, levels)
  }

  /** A filter that goes on has as many levels as were taken. */
  lemma WantedLength(p: Path, levels: Path)
    requires Wanted(p, levels)
    ensures Ended(p) || |p| == |levels|
  {
  }

  lemma WantedGrows(q: Path, last: string, levels: Path, v: string)
    requires NameLevels(levels + [v]) && levels != [] && |q| == |levels|
    ensures Wanted(q + [last], levels + [v]) <==> Wanted(q, levels) && !Ended(q) && last in {v, SWC, MWC}
  {
    var p, all := q + [last], levels + [v];
    var n := |levels|;
    assert forall i :: 0 <= i < n ==> p[i] == q[i] && all[i] == levels[i];
    assert p[n] == last && all[n] == v;
    assert NameLevel(all[n]);
    if Ended(q) {
      assert NameLevel(all[n - 1]);
      assert q[n - 1] != levels[n - 1] && q[n - 1] != SWC;
    }
  }

  lemma WantedStays(p: Path, levels: Path, v: string)
    requires NameLevels(levels + [v]) && levels != [] && |p| <= |levels|
    ensures Wanted(p, levels + [v]) <==> Wanted(p, levels) && Ended(p)
  {
  }

  /** Where a filter of the new list came from. */
  function Origin(p: Path, n: nat): Path {
    if |p| == n + 1 then p[..n] else p
  }

  /** Filters of up to n levels, those of fewer ended. */
  predicate Sized(paths: seq<Path>, n: nat) {
    forall i :: 0 <= i < |paths| ==> 0 < |paths[i]| <= n && (Ended(paths[i]) || |paths[i]| == n)
  }

  lemma GrowMembers(q: Path, v: string, n: nat, p: Path)
    requires 0 < |q| <= n && (Ended(q) || |q| == n)
    ensures p in Grow(q, v) <==>
      Origin(p, n) == q && if Ended(q) then p == q else |p| == n + 1 && p[n] in {v, SWC, MWC}
  {
    if !Ended(q) && |p| == n + 1 && p[..n] == q {
      assert p == q + [p[n]];
    }
    if p in Grow(q, v) && !Ended(q) {
      assert p[..n] == q;
    }
  }

  lemma {:induction false} PassMembers(paths: seq<Path>, v: string, n: nat, p: Path)
    requires Sized(paths, n)
    ensures p in Pass(paths, v) <==>
      Origin(p, n) in paths && if Ended(Origin(p, n)) then p == Origin(p, n) else |p| == n + 1 && p[n] in {v, SWC, MWC}
  {
    if paths != [] {
      var k := |paths| - 1;
      var before, q := paths[..k], paths[k];
      PassMembers(before, v, n, p);
      GrowMembers(q, v, n, p);
      assert paths == before + [q];
      hide Grow, Ended;
      assert p in Pass(paths, v) <==> p in Pass(before, v) || p in Grow(q, v);
      assert Origin(p, n) in paths <==> Origin(p, n) in before || Origin(p, n) == q;
    }
  }

  lemma {:induction false} PassDistinct(paths: seq<Path>, v: string, n: nat)
    requires Sized(paths, n) && Distinct(paths) && v != SWC && v != MWC
    ensures Distinct(Pass(paths, v))
  {
    if paths != [] {
      var k := |paths| - 1;
      var before, q := paths[..k], paths[k];
      PassDistinct(before, v, n);
      var a, b := Pass(before, v), Grow(q, v);
      forall i, j | 0 <= i < |a| && 0 <= j < |b| ensures a[i] != b[j] {
        PassMembers(before, v, n, a[i]);
        GrowMembers(q, v, n, b[j]);
      }
      GrowDistinct(q, v);
      DistinctJoin(a, b);
    }
  }

  lemma GrowDistinct(q: Path, v: string)
    requires v != SWC && v != MWC
    ensures Distinct(Grow(q, v))
  {
    if !Ended(q) {
      assert (q + [v])[|q|] == v && (q + [SWC])[|q|] == SWC && (q + [MWC])[|q|] == MWC;
    }
  }

  lemma DistinctJoin(a: seq<Path>, b: seq<Path>)
    requires Distinct(a) && Distinct(b)
    requires forall i, j :: 0 <= i < |a| && 0 <= j < |b| ==> a[i] != b[j]
    ensures Distinct(a + b)
  {
  }

  lemma {:induction false} OpenJoin(a: seq<Path>, b: seq<Path>)
    ensures Open(a + b) == Open(a) + Open(b)
  {
    if b == [] {
      assert a + b == a;
    } else {
      var k := |b| - 1;
      OpenJoin(a, b[..k]);
      assert (a + b)[..|a| + k] == a + b[..k];
    }
  }

  lemma {:induction false} PassCounts(paths: seq<Path>, v: string)
    requires v != MWC
    ensures Open(Pass(paths, v)) == 2 * Open(paths)
    ensures |Pass(paths, v)| == |paths| + 2 * Open(paths)
  {
    if paths != [] {
      var k := |paths| - 1;
      PassCounts(paths[..k], v);
      OpenJoin(Pass(paths[..k], v), Grow(paths[k], v));
      GrowOpen(paths[k], v);
    }
  }

  lemma GrowOpen(q: Path, v: string)
    requires v != MWC
    ensures Open(Grow(q, v)) == if Ended(q) then 0 else 2
  {
    if Ended(q) {
      OpenSnoc([], q);
    } else {
      var x, y, z := q + [v], q + [SWC], q + [MWC];
      assert x[|q|] == v && y[|q|] == SWC && z[|q|] == MWC;
      assert !Ended(x) && !Ended(y) && Ended(z);
      assert Grow(q, v) == [x, y, z];
      OpenThree(x, y, z);
    }
  }

  lemma OpenThree(x: Path, y: Path, z: Path)
    requires !Ended(x) && !Ended(y) && Ended(z)
    ensures Open([x, y, z]) == 2
  {
    hide Ended;
    assert [x, y, z] == [] + [x] + [y] + [z];
    OpenSnoc([], x);
    OpenSnoc([] + [x], y);
    OpenSnoc([] + [x] + [y], z);
    hide Open;
  }

  lemma OpenSnoc(a: seq<Path>, p: Path)
    ensures Open(a + [p]) == Open(a) + if Ended(p) then 0 else 1
  {
  }

  /** One turn takes the complete list for some levels to that for one level more. */
  lemma PassCompletes(paths: seq<Path>, levels: Path, v: string)
    requires NameLevels(levels + [v]) && Complete(paths, levels)
    ensures Complete(Pass(paths, v), levels + [v])
  {
    CompleteSized(paths, levels);
    LastName(levels, v);
    hide Wanted, Pass, Open, Pow2, NameLevels, Distinct, Sized, Members;
    PassDistinct(paths, v, |levels|);
    PassCounts(paths, v);
    PowStep(|levels|);
    PassAllWanted(paths, levels, v);
  }

  lemma PassAllWanted(paths: seq<Path>, levels: Path, v: string)
    requires NameLevels(levels + [v]) && Complete(paths, levels)
    ensures Members(Pass(paths, v), levels + [v])
  {
    CompleteSized(paths, levels);
    hide Wanted, Pass, Open, Pow2, NameLevels, Distinct, Sized;
    forall p ensures p in Pass(paths, v) <==> Wanted(p, levels + [v]) {
      PassWanted(paths, levels, v, p);
    }
  }

  lemma LastName(levels: Path, v: string)
    requires NameLevels(levels + [v])
    ensures v != SWC && v != MWC
  {
    assert NameLevel((levels + [v])[|levels|]);
  }

  lemma PowStep(n: nat)
    ensures n > 0 ==> Pow2(n) == 2 * Pow2(n - 1)
  {
  }

  lemma CompleteSized(paths: seq<Path>, levels: Path)
    requires Complete(paths, levels)
    ensures Sized(paths, |levels|)
  {
    forall i | 0 <= i < |paths| ensures 0 < |paths[i]| <= |levels| && (Ended(paths[i]) || |paths[i]| == |levels|) {
      assert paths[i] in paths;
      WantedLength(paths[i], levels);
    }
  }

  lemma PassWanted(paths: seq<Path>, levels: Path, v: string, p: Path)
    requires NameLevels(levels + [v]) && Sized(paths, |levels|) && levels != []
    requires Members(paths, levels)
    ensures p in Pass(paths, v) <==> Wanted(p, levels + [v])
  {
    var n := |levels|;
    PassMembers(paths, v, n, p);
    if |p| == n + 1 {
      assert p == p[..n] + [p[n]];
      WantedGrows(p[..n], p[n], levels, v);
    } else if 0 < |p| <= n {
      WantedStays(p, levels, v);
    }
  }

  lemma StartComplete(level: string)
    requires NameLevel(level)
    ensures Complete([[level]], [level])
  {
    var paths: seq<Path> := [[level]];
    assert paths[..0] == [] && Open(paths) == 1;
    assert [level][0] == level;
    forall p: Path ensures p in paths <==> Wanted(p, [level]) {
      if Wanted(p, [level]) { assert p == [p[0]]; }
      assert p in paths <==> p == [level];
    }
  }

  // ---------- the list of strings ----------

  function JoinAll(paths: seq<Path>): seq<string>
    requires forall i :: 0 <= i < |paths| ==> paths[i] != []
  {
    seq(|paths|, i requires 0 <= i < |paths| => Join(paths[i]))
  }

  /** Levels of a name, '+' and '#'. */
  predicate FilterPath(p: Path) {
    p != [] && forall i :: 0 <= i < |p| ==> NameLevel(p[i]) || p[i] == SWC || p[i] == MWC
  }

  /** The test on the last character finds the ended filters. */
  lemma EndsInHash(p: Path)
    requires FilterPath(p)
    ensures var s := Join(p); (s != "" && s[|s| - 1] == '#') <==> Ended(p)
  {
  }

  /** matchTopicS. */
  method MatchTopicS(topic: string) returns (da: seq<string>)
    requires NameLevels(Split(topic))
    ensures topic != "" ==> |da| == Pow2(|Split(topic)|) - 1
    ensures topic != "" ==> forall i, j :: 0 <= i < j < |da| ==> da[i] != da[j]
    ensures topic != "" ==> forall f :: f in da <==> Wanted(Split(f), Split(topic))
    ensures topic == "" ==> da == []
  {
    var tp := Split(topic);
    var ret := [tp[0]];
    ghost var paths: seq<Path> := [[tp[0]]];
    StartComplete(tp[0]);
    assert tp[..1] == [tp[0]];
    for k := 1 to |tp|
      invariant Complete(paths, tp[..k]) && Filters(paths) && ret == JoinAll(paths)
    {
      hide Complete, NameLevels;
      assert tp[..k + 1] == tp[..k] + [tp[k]];
      NamePrefix(tp, k + 1);
      PassCompletes(paths, tp[..k], tp[k]);
      PassFilters(paths, tp[k], tp);
      ret := Turn(ret, tp[k], paths);
      paths := Pass(paths, tp[k]);
    }
    assert tp[..|tp|] == tp;
    NoneEmpty(paths, topic);
    da := [];
    for i := 0 to |ret|
      invariant da == if topic == "" then [] else ret[..i]
    {
      if ret[i] == "" {
        continue;
      }
      da := da + [ret[i]];
    }
    assert ret[..|ret|] == ret;
    Strings(paths, topic);
  }

  ghost predicate Filters(paths: seq<Path>) {
    forall i :: 0 <= i < |paths| ==> FilterPath(paths[i])
  }

  lemma NamePrefix(tp: Path, k: nat)
    requires NameLevels(tp) && 0 < k <= |tp|
    ensures NameLevels(tp[..k])
  {
  }

  lemma {:induction false} PassFilters(paths: seq<Path>, v: string, tp: Path)
    requires Filters(paths) && NameLevels(tp) && v in tp
    ensures Filters(Pass(paths, v))
  {
    if paths != [] {
      PassFilters(paths[..|paths| - 1], v, tp);
      var q := paths[|paths| - 1];
      assert FilterPath(q) && NameLevel(v);
    }
  }

  /** One turn of the list: each entry taken from the front and put to the back, an entry
      that goes on followed by its two wildcard forms. */
  method Turn(list: seq<string>, v: string, ghost paths: seq<Path>) returns (ret: seq<string>)
    requires Filters(paths) && list == JoinAll(paths)
    requires Filters(Pass(paths, v))
    ensures ret == JoinAll(Pass(paths, v))
  {
    ret := list;
    var size := |ret|;
    ghost var now := paths;
    assert paths[0..] + Pass(paths[..0], v) == paths;
    for i := 0 to size
      invariant now == paths[i..] + Pass(paths[..i], v) && Filters(now) && ret == JoinAll(now)
    {
      TurnStep(paths, i, v, now);
      hide Pass, Ended, Filters, JoinAll, Renewed;
      ret := PutBack(ret[1..], ret[0], v);
      now := paths[i + 1..] + Pass(paths[..i + 1], v);
    }
    assert paths[size..] + Pass(paths[..size], v) == Pass(paths, v) by { assert paths[..size] == paths; }
  }

  method PutBack(list: seq<string>, s: string, v: string) returns (ret: seq<string>)
    ensures ret == list + Renewed(s, v)
  {
    if s != "" && s[|s| - 1] == '#' {
      return list + [s];
    }
    ret := list + [s + "/" + v];
    ret := ret + [s + "/+"];
    ret := ret + [s + "/#"];
  }

  /** What an entry taken from the front is replaced by at the back. */
  function Renewed(s: string, v: string): seq<string> {
    if s != "" && s[|s| - 1] == '#' then [s] else [s + "/" + v, s + "/+", s + "/#"]
  }

  lemma TurnStep(paths: seq<Path>, i: nat, v: string, now: seq<Path>)
    requires i < |paths| && Filters(paths) && now == paths[i..] + Pass(paths[..i], v) && Filters(now)
    requires Filters(Pass(paths, v))
    ensures var next := paths[i + 1..] + Pass(paths[..i + 1], v);
      var s, rest := JoinAll(now)[0], JoinAll(now)[1..];
      Filters(next) && JoinAll(next) == rest + Renewed(s, v)
  {
    var p, s := paths[i], Join(paths[i]);
    PassNext(paths, i, v, now);
    EndsInHash(p);
    GrowFilters(paths, i, v);
    GrowJoins(p, v);
    hide Grow, Pass, Ended, Join, FilterPath, Renewed;
    JoinAllTail(now, Grow(p, v));
  }

  lemma JoinAllTail(now: seq<Path>, more: seq<Path>)
    requires now != [] && Filters(now) && Filters(more)
    ensures Filters(now[1..] + more) && JoinAll(now)[0] == Join(now[0])
    ensures JoinAll(now[1..] + more) == JoinAll(now)[1..] + JoinAll(more)
  {
  }

  lemma PassNext(paths: seq<Path>, i: nat, v: string, now: seq<Path>)
    requires i < |paths| && now == paths[i..] + Pass(paths[..i], v)
    ensures paths[i + 1..] + Pass(paths[..i + 1], v) == now[1..] + Grow(paths[i], v) && now[0] == paths[i]
  {
    hide Grow;
    assert paths[..i + 1][..i] == paths[..i];
  }

  lemma {:induction false} GrowFilters(paths: seq<Path>, i: nat, v: string)
    requires i < |paths| && Filters(Pass(paths, v))
    ensures Filters(Grow(paths[i], v))
  {
    hide Grow, FilterPath;
    var k := |paths| - 1;
    if i < k {
      assert forall j :: 0 <= j < |Pass(paths[..k], v)| ==> Pass(paths, v)[j] == Pass(paths[..k], v)[j];
      GrowFilters(paths[..k], i, v);
    } else {
      var a, b := Pass(paths[..k], v), Grow(paths[k], v);
      assert forall j :: 0 <= j < |b| ==> (a + b)[|a| + j] == b[j];
    }
  }

  lemma GrowJoins(p: Path, v: string)
    requires p != []
    requires var s := Join(p); (s != "" && s[|s| - 1] == '#') <==> Ended(p)
    ensures JoinAll(Grow(p, v)) == Renewed(Join(p), v)
  {
    if !Ended(p) {
      assert (p + [v])[..|p|] == p && (p + [SWC])[..|p|] == p && (p + [MWC])[..|p|] == p;
      assert Join(p + [SWC]) == Join(p) + "/" + SWC == Join(p) + "/+";
      assert Join(p + [MWC]) == Join(p) + "/" + MWC == Join(p) + "/#";
    }
  }

  /** Only the empty topic leaves an empty string in the list. */
  lemma NoneEmpty(paths: seq<Path>, topic: string)
    requires Filters(paths) && Complete(paths, Split(topic))
    ensures forall i :: 0 <= i < |paths| ==> (JoinAll(paths)[i] == "" <==> topic == "")
  {
    JoinSplit(topic);
    forall i | 0 <= i < |paths| ensures JoinAll(paths)[i] == "" <==> topic == "" {
      var p := paths[i];
      assert p in paths && Wanted(p, Split(topic));
      EmptyJoin(p);
      EmptyJoin(Split(topic));
    }
  }

  lemma EmptyJoin(p: Path)
    requires p != []
    ensures Join(p) == "" <==> |p| == 1 && p[0] == ""
  {
  }

  /** The strings of the complete list are the wanted filters, each once. */
  lemma Strings(paths: seq<Path>, topic: string)
    requires Filters(paths) && Complete(paths, Split(topic))
    ensures var da := JoinAll(paths);
      && |da| == Pow2(|Split(topic)|) - 1
      && (forall i, j :: 0 <= i < j < |da| ==> da[i] != da[j])
      && forall f :: f in da <==> Wanted(Split(f), Split(topic))
  {
    var da := JoinAll(paths);
    forall i | 0 <= i < |paths| ensures Split(da[i]) == paths[i] {
      assert FilterPath(paths[i]);
      assert SlashFree(paths[i]) by {
        forall j | 0 <= j < |paths[i]| ensures '/' !in paths[i][j] {
          assert NameLevel(paths[i][j]) || paths[i][j] == SWC || paths[i][j] == MWC;
        }
      }
      SplitJoin(paths[i]);
    }
    forall f ensures f in da <==> Wanted(Split(f), Split(topic)) {
      JoinSplit(f);
      if f in da {
        var i :| 0 <= i < |da| && da[i] == f;
        assert Split(f) == paths[i] && paths[i] in paths;
      }
      if Wanted(Split(f), Split(topic)) {
        assert Split(f) in paths;
        var i :| 0 <= i < |paths| && paths[i] == Split(f);
        assert da[i] == f;
      }
    }
    assert Pow2(|Split(topic)|) == 2 * Pow2(|Split(topic)| - 1);
  }
}
