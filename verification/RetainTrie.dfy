/**
  The trie of retained messages as a value: rinsert, rremove and rmatch of memtopics.go. A
  node keeps one message object, into which every message stored there is decoded.
 */
module RetainTrie {
  import opened Options
  import opened Paths
  import opened TopicLevels
  import opened TopicMatch
  import opened Bytes
  import opened HeldMessage

  /** A trie as the map from the levels leading to a node to the node's message. */
  type RStore = map<Path, Option<Message>>

  const NOTHING: RStore := map[[] := None]

  /** rinsert at the node under `at`. */
  function RInsert(t: RStore, at: Path, topic: string, msg: Message): (t': RStore)
    requires at in t
    ensures t.Keys <= t'.Keys
    decreases |topic|
  {
    if topic == "" then t[at := Renew(t[at], msg)]
    else
      match NextLevel(topic)
      case Malformed => t
      case Level(level, rem) =>
        var next := at + [level];
        RInsert(if next in t then t else t[next := None], next, rem.GetOr(""), msg)
  }

  datatype RRemoval = NotFound | Cleared(store: RStore)

  /** rremove at the node under `at`. A childless node on the way back is dropped whether
      or not it has a message of its own. */
  ghost function RRemove(t: RStore, at: Path, topic: string): (r: RRemoval)
    requires at in t
    ensures r.Cleared? ==> r.store.Keys <= t.Keys && forall p <- t :: |p| <= |at| ==> p in r.store
    decreases |topic|
  {
    if topic == "" then Cleared(t[at := None])
    else
      match NextLevel(topic)
      case Malformed => NotFound
      case Level(level, rem) =>
        var next := at + [level];
        if next !in t then NotFound
        else
          match RRemove(t, next, rem.GetOr(""))
          case NotFound => NotFound
          case Cleared(t') => Cleared(Drop(t', next))
  }

  ghost predicate NoChild(t: RStore, at: Path) {
    forall k :: at + [k] !in t
  }

  ghost function Drop(t: RStore, at: Path): RStore {
    if NoChild(t, at) then t - {at} else t
  }

  function MessageAt(t: RStore, path: Path): Option<Message> {
    if path in t then t[path] else None
  }

  /** A node's parent is a node. */
  ghost predicate Rooted(t: RStore) {
    [] in t && forall p, k :: p + [k] in t ==> p in t
  }

  lemma {:induction false} InsertRooted(t: RStore, at: Path, topic: string, msg: Message)
    requires at in t && Rooted(t)
    ensures Rooted(RInsert(t, at, topic, msg))
    decreases |topic|
  {
    if topic != "" {
      match NextLevel(topic)
      case Malformed =>
      case Level(level, rem) =>
        var next := at + [level];
        forall p, k | p + [k] == next ensures p in t { SnocEqual(p, k, at, level); }
        InsertRooted(if next in t then t else t[next := None], next, rem.GetOr(""), msg);
    }
  }

  lemma {:induction false} RemoveRooted(t: RStore, at: Path, topic: string)
    requires at in t && Rooted(t)
    ensures RRemove(t, at, topic).Cleared? ==> Rooted(RRemove(t, at, topic).store)
    decreases |topic|
  {
    if topic != "" {
      match NextLevel(topic)
      case Malformed =>
      case Level(level, rem) =>
        if at + [level] in t { RemoveRooted(t, at + [level], rem.GetOr("")); }
    }
  }

  /** Storing a message renews the message of the walked topic and no other. */
  lemma {:induction false} InsertMessage(t: RStore, at: Path, topic: string, msg: Message, path: Path)
    requires at in t && Rooted(t)
    ensures MessageAt(RInsert(t, at, topic, msg), path) ==
      if WalkFrom(at, topic) == Some(path) then Renew(MessageAt(t, path), msg) else MessageAt(t, path)
    decreases |topic|
  {
    hide Renew;
    if topic == "" {
      assert at + [] == at;
    } else {
      match NextLevel(topic)
      case Malformed =>
      case Level(level, rem) =>
        var next := at + [level];
        WalkStep(at, topic);
        forall p, k | p + [k] == next ensures p in t { SnocEqual(p, k, at, level); }
        InsertMessage(if next in t then t else t[next := None], next, rem.GetOr(""), msg, path);
    }
  }

  /** How rinsert ends: a topic that cannot be cut is refused. */
  function InsertOutcome(t: RStore, at: Path, topic: string, msg: Message): Outcome {
    match WalkFrom(at, topic)
    case None => Refused
    case Some(path) => RenewOutcome(MessageAt(t, path), msg)
  }

  // ---------- removal ----------

  /** Every node from `path` down lies on the way to `target`. */
  ghost predicate OnlyWayTo(t: RStore, path: Path, target: Path) {
    path <= target && forall q <- t :: path <= q ==> q <= target
  }

  /** What is left after a removal that reaches its node: the nodes on the way that lead
      to nothing else go, the target's message goes, the rest stays. */
  lemma {:induction false} RemoveLeaves(t: RStore, at: Path, topic: string)
    requires at in t && Rooted(t)
    requires WalkFrom(at, topic).Some? && WalkFrom(at, topic).value in t
    ensures var target := WalkFrom(at, topic).value; var r := RRemove(t, at, topic);
      && at <= target && r.Cleared?
      && (forall p <- t :: p in r.store <==> |p| <= |at| || !OnlyWayTo(t, p, target))
      && (forall p <- r.store :: p in t && r.store[p] == if p == target then None else t[p])
    decreases |topic|
  {
    var target := WalkFrom(at, topic).value;
    var r := RRemove(t, at, topic);
    if topic == "" {
      assert at + [] == at;
      assert forall p <- t :: p <= at ==> |p| <= |at|;
    } else {
      WalkStep(at, topic);
      var Level(level, rem) := NextLevel(topic);
      var next := at + [level];
      assert target == next + Walk(rem.GetOr("")).value;
      WayIsThere(t, next, Walk(rem.GetOr("")).value);
      RemoveLeaves(t, next, rem.GetOr(""));
      var below := RRemove(t, next, rem.GetOr("")).store;
      assert NoChild(below, next) <==> OnlyWayTo(t, next, target) by {
        ChildlessAfter(t, below, next, target);
      }
      forall p <- t | |p| == |next| && p != next ensures !OnlyWayTo(t, p, target) {
        assert next <= target;
        OnePrefix(p, next, target);
      }
      assert at <= next <= target;
      assert at == target[..|at|];
    }
  }

  lemma OnePrefix(p: Path, q: Path, target: Path)
    requires |p| == |q| && p != q && q <= target
    ensures !(p <= target)
  {
  }

  lemma WayIsThere(t: RStore, at: Path, rest: Path)
    requires Rooted(t) && at + rest in t
    ensures at in t
  {
    if at !in t { NothingBelow(t, at, rest); }
  }

  lemma ChildlessAfter(t: RStore, below: RStore, next: Path, target: Path)
    requires Rooted(t) && next in t && next <= target && below.Keys <= t.Keys
    requires forall p <- t :: p in below <==> |p| <= |next| || !OnlyWayTo(t, p, target)
    ensures NoChild(below, next) <==> OnlyWayTo(t, next, target)
  {
    if OnlyWayTo(t, next, target) {
      forall k ensures next + [k] !in below {
        if next + [k] in t {
          OnlyWayOnward(t, next, next + [k], target);
        }
      }
    } else {
      var q :| q in t && next <= q && !(q <= target);
      var c := next + [q[|next|]];
      assert q == c + q[|c|..];
      WayIsThere(t, c, q[|c|..]);
      OffTheWay(t, c, q, target);
      hide OnlyWayTo;
      assert c in below;
    }
  }

  lemma OffTheWay(t: RStore, p: Path, q: Path, target: Path)
    requires q in t && p <= q && !(q <= target)
    ensures !OnlyWayTo(t, p, target)
  {
  }

  lemma OnlyWayOnward(t: RStore, p: Path, c: Path, target: Path)
    requires OnlyWayTo(t, p, target) && c in t && p <= c
    ensures OnlyWayTo(t, c, target)
  {
  }

  /** Removing a retained topic forgets just its own message exactly when no topic on the
      way, leading to nothing but it, has a message too. */
  lemma RemoveForgetsOne(t: RStore, topic: string)
    requires Rooted(t) && Walk(topic).Some? && Walk(topic).value in t
    ensures var target := Walk(topic).value; var r := RRemove(t, [], topic);
      && r.Cleared?
      && ((forall path :: MessageAt(r.store, path) == if path == target then None else MessageAt(t, path))
          <==> forall p <- t :: p != [] && p != target && OnlyWayTo(t, p, target) ==> t[p] == None)
  {
    var target := Walk(topic).value;
    assert [] + target == target;
    RemoveLeaves(t, [], topic);
    var r := RRemove(t, [], topic);
    if forall path :: MessageAt(r.store, path) == if path == target then None else MessageAt(t, path) {
      forall p <- t | p != [] && p != target && OnlyWayTo(t, p, target) ensures t[p] == None {
        assert p !in r.store;
        assert MessageAt(r.store, p) == MessageAt(t, p);
      }
    }
  }

  /** Whether a removal reaches a node. */
  lemma {:induction false} RemoveFinds(t: RStore, at: Path, topic: string)
    requires at in t && Rooted(t)
    ensures RRemove(t, at, topic).NotFound? <==> WalkFrom(at, topic) == None || WalkFrom(at, topic).value !in t
    decreases |topic|
  {
    if topic == "" {
      assert at + [] == at;
    } else if NextLevel(topic).Level? {
      var next, rest := at + [NextLevel(topic).level], NextLevel(topic).rem.GetOr("");
      WalkStep(at, topic);
      if next in t {
        RemoveFinds(t, next, rest);
      } else if Walk(rest).Some? {
        NothingBelow(t, next, Walk(rest).value);
      }
    }
  }

  /** Topic "a" keeps no message once "a/b" is removed, both having been stored. */
  lemma AncestorForgotten(one: Message, two: Message)
    requires Encoding(one).Some? && Encoding(two).Some?
    ensures var t := RInsert(RInsert(NOTHING, [], "a", one), [], "a/b", two);
      MessageAt(t, ["a"]) == Renew(None, one) && Renew(None, one).Some? &&
      RRemove(t, [], "a/b").Cleared? && MessageAt(RRemove(t, [], "a/b").store, ["a"]) == None
  {
    hide Renew;
    StoredAB(one, two);
    CutAB();
    OnlyAB(one, two);
    RemoveLeaves(StoreAB(one, two), [], "a/b");
    RenewsSome(one);
    hide OnlyWayTo, RRemove, RInsert, WalkFrom, Rooted;
  }

  lemma RenewsSome(msg: Message)
    requires Encoding(msg).Some?
    ensures Renew(None, msg).Some?
  {
  }

  lemma OnlyAB(one: Message, two: Message)
    ensures OnlyWayTo(StoreAB(one, two), ["a"], ["a", "b"]) && MessageAt(StoreAB(one, two), ["a"]) == Renew(None, one)
  {
    hide Renew;
  }

  function StoreAB(one: Message, two: Message): RStore {
    map[[] := None, ["a"] := Renew(None, one), ["a", "b"] := Renew(None, two)]
  }

  lemma StoredAB(one: Message, two: Message)
    ensures Rooted(StoreAB(one, two))
    ensures RInsert(RInsert(NOTHING, [], "a", one), [], "a/b", two) == StoreAB(one, two)
  {
    hide Renew;
    var t := StoreAB(one, two);
    CutAB();
    assert RInsert(NOTHING, [], "a", one) == map[[] := None, ["a"] := Renew(None, one)];
    forall p: Path, k | p + [k] in t ensures p in t {
      if p + [k] == ["a", "b"] { SnocEqual(p, k, ["a"], "b"); } else { SnocEqual(p, k, [], "a"); }
    }
  }

  lemma CutAB()
    ensures NextLevel("a") == Level("a", None) && NextLevel("b") == Level("b", None)
    ensures NextLevel("a/b") == Level("a", Some("b"))
    ensures WalkFrom([], "a/b") == Some(["a", "b"])
    ensures [] + ["a"] == ["a"] && ["a"] + ["b"] == ["a", "b"] && [] + ["a", "b"] == ["a", "b"]
  {
    FirstSeparatorIsFirst("a", 1);
    FirstSeparatorIsFirst("b", 1);
    FirstSeparatorIsFirst("a/b", 1);
    assert "a/b"[..1] == "a" && "a/b"[2..] == "b" && "a"[..1] == "a" && "b"[..1] == "b";
    assert Walk("b") == Some(["b"]);
    assert [] + ["a"] == ["a"] && ["a"] + ["b"] == ["a", "b"];
    WalkStep([], "a/b");
  }

  // ---------- reports ----------

  datatype RHit = RHit(path: Path, msg: Message)

  /** The hits are the messages under these topics, each once. */
  ghost predicate RReportOf(hits: seq<RHit>, t: RStore, paths: iset<Path>) {
    && (forall i :: 0 <= i < |hits| ==> MessageAt(t, hits[i].path) == Some(hits[i].msg) && hits[i].path in paths)
    && (forall i, j :: 0 <= i < j < |hits| ==> hits[i].path != hits[j].path)
    && (forall path :: path in paths && MessageAt(t, path).Some? ==> RReported(hits, path))
  }

  ghost predicate RReported(hits: seq<RHit>, path: Path) {
    exists i :: 0 <= i < |hits| && hits[i].path == path
  }

  predicate RetainedBelow(at: Path, path: Path, filter: string) {
    at <= path && RetainMatches(filter, path[|at|..])
  }

  ghost function RetainedPaths(at: Path, filter: string): iset<Path> {
    iset path | RetainedBelow(at, path, filter)
  }

  predicate StartsWith(path: Path, at: Path) {
    at <= path
  }

  ghost function AllBelow(at: Path): iset<Path> {
    iset path | StartsWith(path, at)
  }

  lemma JoinRReports(a: seq<RHit>, b: seq<RHit>, t: RStore, pathsA: iset<Path>, pathsB: iset<Path>)
    requires RReportOf(a, t, pathsA) && RReportOf(b, t, pathsB) && pathsA !! pathsB
    ensures RReportOf(a + b, t, pathsA + pathsB)
  {
    forall path | path in pathsA + pathsB && MessageAt(t, path).Some?
      ensures RReported(a + b, path)
    {
      if path in pathsA {
        var i :| 0 <= i < |a| && a[i].path == path;
        assert (a + b)[i] == a[i];
      } else {
        var i :| 0 <= i < |b| && b[i].path == path;
        assert (a + b)[|a| + i] == b[i];
      }
    }
  }

  lemma SameRReport(hits: seq<RHit>, t: RStore, paths: iset<Path>, others: iset<Path>)
    requires RReportOf(hits, t, paths)
    requires forall path <- paths :: path in others
    requires forall path <- others :: path in paths || path !in t
    ensures RReportOf(hits, t, others)
  {
  }

  // ---------- runs ----------

  datatype ROp = Store(msg: Message) | Clear(topic: string)

  /** A topic's bytes as the characters that levels are cut from. */
  function Chars(topic: Data): string {
    seq(|topic|, i requires 0 <= i < |topic| => topic[i] as char)
  }

  function TopicOf(msg: Message): string {
    Chars(msg.pub.topic)
  }

  ghost function RApply(t: RStore, op: ROp): RStore
    requires [] in t
  {
    match op
    case Store(msg) => RInsert(t, [], TopicOf(msg), msg)
    case Clear(topic) =>
      match RRemove(t, [], topic)
      case NotFound => t
      case Cleared(next) => next
  }

  ghost function RRun(ops: seq<ROp>): (t: RStore)
    ensures [] in t
  {
    if ops == [] then NOTHING else RApply(RRun(ops[..|ops| - 1]), ops[|ops| - 1])
  }

  lemma {:induction false} RunRooted(ops: seq<ROp>)
    ensures Rooted(RRun(ops))
  {
    if ops != [] {
      var before, op := ops[..|ops| - 1], ops[|ops| - 1];
      RunRooted(before);
      match op {
        case Store(msg) => InsertRooted(RRun(before), [], TopicOf(msg), msg);
        case Clear(topic) => RemoveRooted(RRun(before), [], topic);
      }
    }
  }

  /** The retained messages as a flat table: what a caller expects of a run of stores and
      clears. */
  type Table = map<Path, Message>

  function Get(m: Table, path: Path): Option<Message> {
    if path in m then Some(m[path]) else None
  }

  function ApplyFlat(m: Table, op: ROp): Table {
    match op
    case Store(msg) =>
      if Walk(TopicOf(msg)).Some? && Encoding(msg).Some? then
        var path := Walk(TopicOf(msg)).value;
        m[path := Reuse(Get(m, path), Encoding(msg).value)]
      else m
    case Clear(topic) => if Walk(topic).Some? then m - {Walk(topic).value} else m
  }

  function RunFlat(ops: seq<ROp>): Table {
    if ops == [] then map[] else ApplyFlat(RunFlat(ops[..|ops| - 1]), ops[|ops| - 1])
  }

  /** The trie has the messages of the table. */
  ghost predicate Agrees(t: RStore, m: Table) {
    forall path :: MessageAt(t, path) == Get(m, path)
  }

  /** The clear has no node to reach, or its removal forgets nothing but its own message. */
  ghost predicate ForgetsOne(t: RStore, topic: string) {
    Walk(topic).Some? && Walk(topic).value in t ==>
      forall p <- t :: p != [] && p != Walk(topic).value && OnlyWayTo(t, p, Walk(topic).value) ==> t[p] == None
  }

  /** An operation after which trie and table still agree. */
  ghost predicate GentleAt(t: RStore, op: ROp) {
    op.Clear? ==> ForgetsOne(t, op.topic)
  }

  /** Every operation of the run is. */
  ghost predicate Gentle(ops: seq<ROp>) {
    if ops == [] then true
    else
      var before, op := ops[..|ops| - 1], ops[|ops| - 1];
      Gentle(before) && GentleAt(RRun(before), op)
  }

  lemma StoreAgrees(t: RStore, m: Table, msg: Message)
    requires Rooted(t) && Agrees(t, m)
    ensures Agrees(RApply(t, Store(msg)), ApplyFlat(m, Store(msg)))
  {
    assert [] in t;
    hide RInsert, Reuse, Rooted, Encoding;
    var m' := ApplyFlat(m, Store(msg));
    forall path ensures MessageAt(RApply(t, Store(msg)), path) == Get(m', path) {
      InsertMessage(t, [], TopicOf(msg), msg, path);
      assert forall levels: Path :: [] + levels == levels;
      assert MessageAt(t, path) == Get(m, path);
    }
  }

  /** A step keeps trie and table in agreement exactly if it is gentle. */
  lemma StepAgrees(t: RStore, m: Table, op: ROp)
    requires Rooted(t) && Agrees(t, m)
    ensures Agrees(RApply(t, op), ApplyFlat(m, op)) <==> GentleAt(t, op)
  {
    match op {
      case Store(msg) => StoreAgrees(t, m, msg);
      case Clear(topic) => ClearAgrees(t, m, topic);
    }
  }

  lemma ClearAgrees(t: RStore, m: Table, topic: string)
    requires Rooted(t) && Agrees(t, m)
    ensures Agrees(RApply(t, Clear(topic)), ApplyFlat(m, Clear(topic))) <==> ForgetsOne(t, topic)
  {
    hide RRemove, OnlyWayTo;
    var m' := ApplyFlat(m, Clear(topic));
    RemoveFinds(t, [], topic);
    assert forall levels: Path :: [] + levels == levels;
    if Walk(topic).Some? {
      var target := Walk(topic).value;
      assert forall path :: Get(m', path) == if path == target then None else Get(m, path);
      if target in t {
        RemoveForgetsOne(t, topic);
        var r := RRemove(t, [], topic);
        assert Agrees(r.store, m') <==>
          forall path :: MessageAt(r.store, path) == if path == target then None else MessageAt(t, path);
      } else {
        assert Get(m, target) == MessageAt(t, target) == None;
      }
    }
  }

  /** After the run, and after every part of it. */
  ghost predicate AlwaysAgree(ops: seq<ROp>) {
    Agrees(RRun(ops), RunFlat(ops)) && (ops != [] ==> AlwaysAgree(ops[..|ops| - 1]))
  }

  /** Trie and table agree all along a run exactly if every step of it is gentle. */
  lemma {:induction false} RunAgrees(ops: seq<ROp>)
    ensures AlwaysAgree(ops) <==> Gentle(ops)
  {
    hide GentleAt, RApply, ApplyFlat, Agrees;
    if ops == [] {
      EmptyAgrees();
    } else {
      var before, op := ops[..|ops| - 1], ops[|ops| - 1];
      RunAgrees(before);
      RunRooted(before);
      if Agrees(RRun(before), RunFlat(before)) {
        StepAgrees(RRun(before), RunFlat(before), op);
      }
    }
  }

  lemma EmptyAgrees()
    ensures Agrees(RRun([]), RunFlat([]))
  {
  }

  // ---------- what a caller can see ----------

  /** Every node below the root leads to a message. */
  ghost predicate RLean(t: RStore) {
    forall p <- t :: p != [] ==> LeadsOn(t, p)
  }

  ghost predicate LeadsOn(t: RStore, p: Path) {
    exists q :: q in t && p <= q && t[q].Some?
  }

  /** Clearing this topic loses another's message: the topic is stored, and so is one above
      it that leads to no other topic. */
  ghost predicate Harms(m: Table, target: Path) {
    target in m && exists p :: p in m && p != [] && p != target && Alone(m, p, target)
  }

  /** No stored topic from p down lies off the way to the target. */
  ghost predicate Alone(m: Table, p: Path, target: Path) {
    p <= target && forall q <- m :: p <= q ==> q <= target
  }

  /** On a trie without idle nodes the table shows which clears are harmful. */
  lemma HarmShows(t: RStore, m: Table, topic: string)
    requires Rooted(t) && RLean(t) && Agrees(t, m) && Walk(topic).Some?
    ensures ForgetsOne(t, topic) <==> !Harms(m, Walk(topic).value)
  {
    var target := Walk(topic).value;
    forall p ensures p in m <==> p in t && t[p].Some? { assert MessageAt(t, p) == Get(m, p); }
    forall p | p in t && p != [] ensures OnlyWayTo(t, p, target) <==> Alone(m, p, target) {
      if Alone(m, p, target) {
        forall q <- t | p <= q ensures q <= target {
          assert q != [];
          assert LeadsOn(t, q);
          var s :| s in t && q <= s && t[s].Some?;
          assert s in m && p <= s;
        }
      }
    }
    if !(target in m) && target in t {
      NoWayBefore(t, target);
    }
  }

  /** A node without a message has another below it. */
  lemma NoWayBefore(t: RStore, target: Path)
    requires RLean(t) && target in t && t[target] == None
    ensures forall p :: p in t && p != [] ==> !OnlyWayTo(t, p, target)
  {
    if target != [] {
      assert LeadsOn(t, target);
      var s :| s in t && target <= s && t[s].Some?;
      assert s != target;
      forall p | p in t && p != [] ensures !OnlyWayTo(t, p, target) {
        NotOnlyWay(t, p, target, s);
      }
    }
  }

  lemma NotOnlyWay(t: RStore, p: Path, target: Path, s: Path)
    requires s in t && target <= s && s != target
    ensures !OnlyWayTo(t, p, target)
  {
    if p <= target {
      assert p <= s && !(s <= target);
    }
  }

  /** Stores whose topics can be cut and whose messages can be encoded. */
  predicate Tidy(ops: seq<ROp>) {
    forall n :: 0 <= n < |ops| && ops[n].Store? ==> Walk(TopicOf(ops[n].msg)).Some? && Encoding(ops[n].msg).Some?
  }

  /** The nodes after an insertion: those on the way to its topic are added. */
  lemma {:induction false} InsertNodes(t: RStore, at: Path, topic: string, msg: Message, p: Path)
    requires at in t && WalkFrom(at, topic).Some?
    ensures var target := WalkFrom(at, topic).value;
      && at <= target
      && (p in RInsert(t, at, topic, msg) <==> p in t || (at <= p && p <= target))
    decreases |topic|
  {
    if topic == "" {
      assert at + [] == at;
      OnlySelf(at, p);
    } else {
      var next, rest := at + [NextLevel(topic).level], NextLevel(topic).rem.GetOr("");
      WalkStep(at, topic);
      InsertNodes(if next in t then t else t[next := None], next, rest, msg, p);
      OneFurther(at, NextLevel(topic).level, WalkFrom(at, topic).value, p);
    }
  }

  lemma OnlySelf(at: Path, p: Path)
    ensures at <= p && p <= at <==> p == at
  {
  }

  lemma OneFurther(at: Path, level: string, target: Path, p: Path)
    requires at + [level] <= target
    ensures at <= target
    ensures at <= p && p <= target <==> p == at || (at + [level] <= p && p <= target)
  {
    assert (at + [level])[..|at|] == at;
    assert target[..|at|] == at;
  }

  lemma InsertLean(t: RStore, topic: string, msg: Message)
    requires Rooted(t) && RLean(t) && Walk(topic).Some? && Encoding(msg).Some?
    ensures RLean(RInsert(t, [], topic, msg))
  {
    var t', target := RInsert(t, [], topic, msg), Walk(topic).value;
    assert [] + target == target;
    forall p ensures p in t' <==> p in t || p <= target {
      InsertNodes(t, [], topic, msg, p);
    }
    InsertMessage(t, [], topic, msg, target);
    assert t'[target] == MessageAt(t', target);
    hide RInsert, Encoding;
    forall p <- t' | p != [] ensures LeadsOn(t', p) {
      if !(p <= target) {
        assert LeadsOn(t, p);
        var q :| q in t && p <= q && t[q].Some?;
        InsertMessage(t, [], topic, msg, q);
        assert q in t' && t'[q] == MessageAt(t', q);
      }
    }
  }

  lemma RemoveRLean(t: RStore, topic: string)
    requires Rooted(t) && RLean(t) && RRemove(t, [], topic).Cleared?
    ensures RLean(RRemove(t, [], topic).store)
  {
    RemoveFinds(t, [], topic);
    var target := Walk(topic).value;
    assert [] + target == target;
    RemoveLeaves(t, [], topic);
    hide RRemove;
    var t' := RRemove(t, [], topic).store;
    forall p <- t' | p != [] ensures LeadsOn(t', p) {
      if p <= target {
        StillLeads(t, t', p, target);
      } else {
        assert LeadsOn(t, p);
        var q :| q in t && p <= q && t[q].Some?;
        assert !OnlyWayTo(t, q, target);
      }
    }
  }

  /** A node on the way that stays has a message off the way below it. */
  lemma StillLeads(t: RStore, t': RStore, p: Path, target: Path)
    requires RLean(t) && p in t && p != [] && p <= target && !OnlyWayTo(t, p, target)
    requires forall q <- t :: !OnlyWayTo(t, q, target) ==> q in t'
    requires forall q <- t' :: q in t && t'[q] == if q == target then None else t[q]
    ensures LeadsOn(t', p)
  {
    var r :| r in t && p <= r && !(r <= target);
    assert LeadsOn(t, r);
    var q :| q in t && r <= q && t[q].Some?;
    Beyond(p, r, q, target);
    OffTheWay(t, q, q, target);
    hide OnlyWayTo, RLean;
    assert q in t' && t'[q] == t[q];
  }

  lemma Beyond(p: Path, r: Path, q: Path, target: Path)
    requires p <= r && r <= q && !(r <= target)
    ensures p <= q && !(q <= target)
  {
  }

  lemma {:induction false} RunLean(ops: seq<ROp>)
    requires Tidy(ops)
    ensures RLean(RRun(ops))
  {
    hide RLean;
    if ops == [] {
      NothingLean();
    } else {
      var before, op := ops[..|ops| - 1], ops[|ops| - 1];
      assert Tidy(before);
      RunLean(before);
      RunRooted(before);
      match op {
        case Store(msg) => InsertLean(RRun(before), TopicOf(msg), msg);
        case Clear(topic) => if RRemove(RRun(before), [], topic).Cleared? { RemoveRLean(RRun(before), topic); }
      }
    }
  }

  lemma NothingLean()
    ensures RLean(RRun([]))
  {
  }

  /** No clear of the run harms another topic's message, by the table alone. */
  ghost predicate Harmless(ops: seq<ROp>) {
    if ops == [] then true
    else
      var before, op := ops[..|ops| - 1], ops[|ops| - 1];
      Harmless(before) && HarmlessAt(RunFlat(before), op)
  }

  ghost predicate HarmlessAt(m: Table, op: ROp) {
    op.Clear? && Walk(op.topic).Some? ==> !Harms(m, Walk(op.topic).value)
  }

  /** Over runs of such stores and of any clears, trie and table agree all along exactly if
      no clear is harmful. */
  lemma {:induction false} RunAgreesIfHarmless(ops: seq<ROp>)
    requires Tidy(ops)
    ensures Gentle(ops) <==> Harmless(ops)
  {
    hide RApply, ApplyFlat, Agrees, ForgetsOne, Harms;
    if ops != [] {
      var before, op := ops[..|ops| - 1], ops[|ops| - 1];
      assert Tidy(before);
      RunAgreesIfHarmless(before);
      if Gentle(before) {
        RunAgrees(before);
        RunRooted(before);
        RunLean(before);
        if op.Clear? && Walk(op.topic).Some? {
          HarmShows(RRun(before), RunFlat(before), op.topic);
        } else {
          NoWalkForgets(RRun(before), op);
        }
      }
    }
  }

  lemma NoWalkForgets(t: RStore, op: ROp)
    requires op.Store? || Walk(op.topic) == None
    ensures GentleAt(t, op)
  {
  }

  // ---------- the message stored and the message held ----------

  /** A store that reaches a node and is encoded. */
  predicate Lands(op: ROp) {
    op.Store? && Walk(TopicOf(op.msg)).Some? && Encoding(op.msg).Some?
  }

  function Landing(op: ROp): Path
    requires Lands(op)
  {
    Walk(TopicOf(op.msg)).value
  }

  /** The table that keeps the messages themselves. */
  function ApplyIdeal(m: Table, op: ROp): Table {
    if Lands(op) then m[Landing(op) := Message(op.msg.pub, false, Encoding(op.msg).value)]
    else ApplyFlat(m, op)
  }

  function RunIdeal(ops: seq<ROp>): Table {
    if ops == [] then map[] else ApplyIdeal(RunIdeal(ops[..|ops| - 1]), ops[|ops| - 1])
  }

  predicate DoneAt(m: Table, op: ROp) {
    Lands(op) ==> RenewOutcome(Get(m, Landing(op)), op.msg) == Done
  }

  predicate HeldAt(m: Table, op: ROp) {
    Lands(op) ==> HoldsAs(Get(m, Landing(op)), op.msg)
  }

  lemma StepHolds(m: Table, op: ROp)
    ensures HeldAt(m, op) <==> DoneAt(m, op) && ApplyFlat(m, op) == ApplyIdeal(m, op)
  {
    hide Encoding, Reuse, RenewOutcome, TopicOf, Walk;
    if Lands(op) {
      assert ApplyFlat(m, op)[Landing(op)] == Reuse(Get(m, Landing(op)), Encoding(op.msg).value);
    }
  }

  /** Every store of the run ends well. */
  predicate AllDone(ops: seq<ROp>) {
    if ops == [] then true
    else
      var before, op := ops[..|ops| - 1], ops[|ops| - 1];
      AllDone(before) && DoneAt(RunFlat(before), op)
  }

  /** Every store of the run finds a message held that keeps it as it is: by the messages
      stored alone. */
  ghost predicate AllKept(ops: seq<ROp>) {
    if ops == [] then true
    else
      var before, op := ops[..|ops| - 1], ops[|ops| - 1];
      AllKept(before) && (Lands(op) ==> Kept(Get(RunIdeal(before), Landing(op)), op.msg))
  }

  predicate AllStorable(ops: seq<ROp>) {
    forall n :: 0 <= n < |ops| && Lands(ops[n]) ==> Storable(ops[n].msg)
  }

  /** The messages held are those stored, after the run and after every part of it. */
  predicate AlwaysIdeal(ops: seq<ROp>) {
    RunFlat(ops) == RunIdeal(ops) && (ops != [] ==> AlwaysIdeal(ops[..|ops| - 1]))
  }

  /** Along a run every store ends well and leaves the very message stored exactly if each
      message stored carries all that the one stored before it under its topic had. */
  lemma {:induction false} RunHolds(ops: seq<ROp>)
    requires AllStorable(ops)
    ensures AllKept(ops) <==> AllDone(ops) && AlwaysIdeal(ops)
  {
    hide HeldAt, DoneAt, ApplyFlat, ApplyIdeal, Kept, Storable, Landing, Encoding, Walk;
    if ops != [] {
      var before, op := ops[..|ops| - 1], ops[|ops| - 1];
      assert AllStorable(before) by { assert forall n :: 0 <= n < |before| ==> before[n] == ops[n]; }
      RunHolds(before);
      if AlwaysIdeal(before) {
        StepHolds(RunFlat(before), op);
        assert Lands(op) ==> Storable(op.msg);
        StepKept(RunFlat(before), op);
      }
    }
  }

  lemma StepKept(m: Table, op: ROp)
    requires Lands(op) ==> Storable(op.msg)
    ensures HeldAt(m, op) <==> (Lands(op) ==> Kept(Get(m, Landing(op)), op.msg))
  {
    hide HoldsAs, Kept, Storable, Landing;
    if Lands(op) {
      hide Lands;
      KeptIsHeld(Get(m, Landing(op)), op.msg);
    }
  }

  /** After any run of stores and clears that is gentle, a subscription's filter is answered
      with exactly the messages of the table whose topics its levels match, each once. */
  lemma RetainReportIsStandard(ops: seq<ROp>, filter: string, hits: seq<RHit>)
    requires Gentle(ops) && Walk(filter).Some?
    requires RReportOf(hits, RRun(ops), RetainedPaths([], filter))
    ensures forall path :: RReported(hits, path) <==> path in RunFlat(ops) && Matches(Walk(filter).value, path)
    ensures forall i :: 0 <= i < |hits| ==>
      hits[i].path in RunFlat(ops) && hits[i].msg == RunFlat(ops)[hits[i].path]
  {
    var t, m := RRun(ops), RunFlat(ops);
    RunAgrees(ops);
    forall i | 0 <= i < |hits|
      ensures hits[i].path in m && hits[i].msg == m[hits[i].path]
      ensures Matches(Walk(filter).value, hits[i].path)
    {
      assert MessageAt(t, hits[i].path) == Some(hits[i].msg);
      assert hits[i].path[0..] == hits[i].path;
      RetainDecidesStandard(filter, hits[i].path);
    }
    forall path | path in m && Matches(Walk(filter).value, path)
      ensures RReported(hits, path)
    {
      RetainDecidesStandard(filter, path);
      assert path[0..] == path;
      assert MessageAt(t, path) == Get(m, path);
      assert path in RetainedPaths([], filter) && MessageAt(t, path).Some?;
    }
  }

  // ---------- by the name a caller writes ----------

  /** A name written with these bytes. */
  predicate Spells(name: string, topic: Data) {
    |name| == |topic| && forall i :: 0 <= i < |name| ==> name[i] as int == topic[i]
  }

  lemma NameIsTopic(name: string, msg: Message)
    requires Spells(name, msg.pub.topic)
    ensures TopicOf(msg) == name
  {
    forall i | 0 <= i < |name| ensures TopicOf(msg)[i] == name[i] {
      assert TopicOf(msg)[i] as int == name[i] as int;
    }
  }

  predicate NoWildcards(path: Path) {
    forall i :: 0 <= i < |path| ==> path[i] != "+" && path[i] != "#"
  }

  /** What a message is asked for under the name of its own topic: after it was stored its
      node's message is among the answers, and is the only one when the name has neither
      wildcards nor empty levels. */
  lemma RetainedByName(ops: seq<ROp>, msg: Message, name: string, hits: seq<RHit>)
    requires |name| == |msg.pub.topic| && forall i :: 0 <= i < |name| ==> name[i] as int == msg.pub.topic[i]
    requires Walk(name).Some? && Encoding(msg).Some?
    requires RReportOf(hits, RRun(ops + [Store(msg)]), RetainedPaths([], name))
    ensures var path := Walk(name).value;
      && MessageAt(RRun(ops + [Store(msg)]), path) == Renew(MessageAt(RRun(ops), path), msg)
      && (exists i :: 0 <= i < |hits| && hits[i].path == path
           && Some(hits[i].msg) == Renew(MessageAt(RRun(ops), path), msg))
      && (NoWildcards(path) ==> |hits| == 1)
  {
    var path, t := Walk(name).value, RRun(ops + [Store(msg)]);
    RRunNext(ops, Store(msg));
    RunRooted(ops);
    NameIsTopic(name, msg);
    InsertMessage(RRun(ops), [], name, msg, path);
    assert [] + path == path && path[0..] == path;
    RenewsAny(MessageAt(RRun(ops), path), msg);
    RetainDecidesStandard(name, path);
    WalkIsStored(name);
    MatchesItself(path);
    hide Renew, RRun, Walk, Matches, StoredPath;
    assert RReported(hits, path);
    if NoWildcards(path) {
      OnlyItself(name, hits, t, path);
    }
  }

  lemma RenewsAny(held: Option<Message>, msg: Message)
    requires Encoding(msg).Some?
    ensures Renew(held, msg).Some?
  {
  }

  lemma RRunNext(ops: seq<ROp>, op: ROp)
    ensures RRun(ops + [op]) == RApply(RRun(ops), op)
  {
  }

  lemma MatchesItself(path: Path)
    requires StoredPath(path)
    ensures Matches(path, path)
    ensures NoWildcards(path) ==> forall q :: Matches(path, q) <==> q == path
  {
  }

  lemma FirstTwoDiffer(hits: seq<RHit>, t: RStore, paths: iset<Path>)
    requires |hits| >= 2 && RReportOf(hits, t, paths)
    ensures hits[0].path != hits[1].path
  {
  }

  lemma FirstIsHeld(hits: seq<RHit>, t: RStore, paths: iset<Path>)
    requires hits != [] && RReportOf(hits, t, paths)
    ensures MessageAt(t, hits[0].path).Some?
  {
  }

  lemma OnlyItself(name: string, hits: seq<RHit>, t: RStore, path: Path)
    requires Walk(name) == Some(path) && NoWildcards(path) && RReportOf(hits, t, RetainedPaths([], name))
    ensures forall i :: 0 <= i < |hits| ==> hits[i].path == path
    ensures |hits| <= 1
  {
    WalkIsStored(name);
    MatchesItself(path);
    forall i | 0 <= i < |hits| ensures hits[i].path == path {
      assert hits[i].path[0..] == hits[i].path;
      RetainDecidesStandard(name, hits[i].path);
    }
    if |hits| >= 2 {
      FirstTwoDiffer(hits, t, RetainedPaths([], name));
    }
  }

  lemma ClearedThere(t: RStore, name: string, path: Path)
    requires [] in t && Rooted(t) && Walk(name) == Some(path)
    ensures MessageAt(RApply(t, Clear(name)), path) == None
  {
    assert [] + path == path;
    RemoveFinds(t, [], name);
    if path in t {
      RemoveLeaves(t, [], name);
    }
  }

  /** After the topic was cleared a name without wildcards is answered with nothing. */
  lemma ClearedByName(ops: seq<ROp>, name: string, hits: seq<RHit>)
    requires Walk(name).Some? && NoWildcards(Walk(name).value)
    requires RReportOf(hits, RRun(ops + [Clear(name)]), RetainedPaths([], name))
    ensures hits == []
  {
    hide RApply, RRemove, Rooted;
    var path := Walk(name).value;
    RRunNext(ops, Clear(name));
    RunRooted(ops);
    ClearedThere(RRun(ops), name, path);
    hide RRun, Walk;
    OnlyItself(name, hits, RRun(ops + [Clear(name)]), path);
    if hits != [] {
      FirstIsHeld(hits, RRun(ops + [Clear(name)]), RetainedPaths([], name));
    }
  }
}
