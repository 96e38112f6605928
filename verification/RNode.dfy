/**
  The trie of retained messages on the heap: rnode of memtopics.go.
 */
module RNodes {
  import opened Options
  import opened Paths
  import opened TopicLevels
  import opened TopicMatch
  import opened HeldMessage
  import opened PublishSpec
  import RetainTrie
  import opened RetainTrieTypes = RetainTrie

  type RIndex = map<Path, RNode>

  /** The children of a node are the nodes of the index one level down. */
  ghost predicate Linked(nodes: RIndex)
    reads nodes.Values
  {
    && (forall p <- nodes :: nodes[p].path == p)
    && (forall p, k :: Child(p, k) in nodes ==> p in nodes && k in nodes[p].rnodes)
    && (forall p <- nodes, k <- nodes[p].rnodes :: Child(p, k) in nodes && nodes[Child(p, k)] == nodes[p].rnodes[k])
  }

  /** The nodes hold the store. */
  ghost predicate Holds(nodes: RIndex, t: RStore)
    reads nodes.Values
  {
    nodes.Keys == t.Keys && forall p <- nodes :: nodes[p].msg == t[p]
  }

  /** After a change of one node's message alone. */
  twostate lemma Retold(nodes: RIndex, new at: Path, new t: RStore)
    requires old(Linked(nodes)) && at in nodes
    requires nodes.Keys == t.Keys && forall p <- nodes :: old(nodes[p].msg) == t[p]
    requires forall p <- nodes :: nodes[p] == nodes[at] || unchanged(nodes[p])
    requires nodes[at].rnodes == old(nodes[at].rnodes)
    ensures Linked(nodes) && Holds(nodes, t[at := nodes[at].msg])
  {
  }

  /** After a childless child is dropped from one node. */
  twostate lemma Unlinked(nodes: RIndex, new at: Path, new t: RStore, new level: string)
    requires old(Linked(nodes)) && at in nodes
    requires nodes.Keys == t.Keys && forall p <- nodes :: old(nodes[p].msg) == t[p]
    requires forall p <- nodes :: nodes[p] == nodes[at] || unchanged(nodes[p])
    requires Child(at, level) in t && NoChild(t, Child(at, level))
    requires nodes[at].rnodes == old(nodes[at].rnodes) - {level}
    requires nodes[at].msg == old(nodes[at].msg)
    ensures Linked(nodes - {Child(at, level)}) && Holds(nodes - {Child(at, level)}, t - {Child(at, level)})
  {
    var c := Child(at, level);
    forall p, k ensures Child(p, k) == c <==> p == at && k == level {
      SnocEqual(p, k, at, level);
    }
    forall k ensures Child(c, k) !in t { assert Child(c, k) == c + [k]; }
  }

  class RNode {
    var msg: Option<Message>
    var rnodes: map<string, RNode>
    ghost const path: Path

    constructor (ghost path: Path)
      ensures msg == None && rnodes == map[]
      ensures this.path == path
    {
      msg, rnodes := None, map[];
      this.path := path;
    }

    /** This node in the trie with these nodes and this store. */
    ghost predicate At(nodes: RIndex, t: RStore)
      reads nodes.Values
    {
      path in nodes && nodes[path] == this && nodes.Keys == t.Keys && Linked(nodes) && Holds(nodes, t)
    }

    /** Adds an empty child. */
    method AddChild(level: string, ghost nodes: RIndex, ghost t: RStore) returns (n: RNode, ghost after: RIndex)
      requires At(nodes, t) && level !in rnodes
      modifies this
      ensures fresh(n) && after == nodes[Child(path, level) := n]
      ensures n.path == Child(path, level) && n.At(after, t[Child(path, level) := None])
    {
      assert Child(path, level) !in nodes;
      n := new RNode(Child(path, level));
      rnodes := rnodes[level := n];
      after := nodes[Child(path, level) := n];
      forall p, k ensures Child(p, k) == Child(path, level) <==> p == path && k == level {
        SnocEqual(p, k, path, level);
      }
    }

    /** The child at a level, if any. */
    method Find(level: string, ghost nodes: RIndex, ghost t: RStore) returns (n: RNode?)
      requires At(nodes, t)
      ensures n == null <==> level !in rnodes
      ensures n == null <==> Child(path, level) !in t
      ensures n != null ==> n.path == Child(path, level) && n.At(nodes, t)
    {
      assert Child(path, level) in nodes <==> level in rnodes;
      n := if level in rnodes then rnodes[level] else null;
    }

    /** The child at a level, made if there is none. */
    method ChildFor(level: string, ghost nodes: RIndex, ghost t: RStore)
      returns (n: RNode, ghost after: RIndex, ghost t': RStore)
      requires At(nodes, t)
      modifies this
      ensures t' == if Child(path, level) in t then t else t[Child(path, level) := None]
      ensures n.path == Child(path, level) && n.At(after, t')
      ensures forall p <- nodes :: p in after && after[p] == nodes[p]
      ensures forall p <- after :: p in nodes || fresh(after[p])
    {
      hide Linked, Holds;
      var found := Find(level, nodes, t);
      if found != null {
        n, after, t' := found, nodes, t;
      } else {
        n, after := AddChild(level, nodes, t);
        t' := t[Child(path, level) := None];
      }
    }

    method RInsert(topic: string, msg: Message, ghost nodes: RIndex, ghost t: RStore)
      returns (r: Outcome, ghost after: RIndex)
      requires At(nodes, t) && Ready(msg)
      modifies nodes.Values
      decreases |topic|
      ensures At(after, RetainTrie.RInsert(t, path, topic, msg))
      ensures forall p <- nodes :: p in after && after[p] == nodes[p]
      ensures forall p <- after :: p in nodes || fresh(after[p])
      ensures r == InsertOutcome(t, path, topic, msg)
    {
      hide Linked, Renew, RenewOutcome, Ready;
      if |topic| == 0 {
        assert path + [] == path;
        r := KeepMessage(msg);
        Retold(nodes, path, t);
        return r, nodes;
      }
      var next := NextTopicLevel(topic);
      if next.Malformed? {
        return Refused, nodes;
      }
      WalkStep(path, topic);
      var n, nodes0, t0 := ChildFor(next.level, nodes, t);
      r, after := n.RInsert(next.rem.GetOr(""), msg, nodes0, t0);
    }

    /** Encodes the message and decodes it into the one this node has. */
    method KeepMessage(m: Message) returns (r: Outcome)
      requires Ready(m)
      modifies `msg
      ensures msg == Renew(old(msg), m) && r == RenewOutcome(old(msg), m)
    {
      hide Ready, LeftBy, DecodeInto, Fits, Writable, Wire;
      var enc := Encoding(m);
      if enc == None {
        return Refused;
      }
      if msg == None {
        msg := Some(FRESH);
      }
      var was := msg.value;
      var decoded := DecodeInto(was.pub, enc.value);
      if decoded.Ok? {
        msg := Some(Message(decoded.value, false, enc.value));
        return Done;
      }
      msg := Some(Message(LeftBy(was.pub, enc.value), was.dirty, enc.value));
      return if decoded.Bad? then Refused else Panicked;
    }

    method RRemove(topic: string, ghost nodes: RIndex, ghost t: RStore) returns (err: bool, ghost after: RIndex)
      requires At(nodes, t)
      modifies nodes.Values
      decreases |topic|
      ensures err <==> RetainTrie.RRemove(t, path, topic).NotFound?
      ensures err ==> after == nodes && At(nodes, t) && forall p <- nodes :: unchanged(nodes[p])
      ensures !err ==> At(after, RetainTrie.RRemove(t, path, topic).store)
      ensures forall p <- after :: p in nodes && after[p] == nodes[p]
    {
      hide Linked;
      if |topic| == 0 {
        msg := None;
        Retold(nodes, path, t);
        return false, nodes;
      }
      var next := NextTopicLevel(topic);
      if next.Malformed? {
        return true, nodes;
      }
      var n := Find(next.level, nodes, t);
      if n == null {
        return true, nodes;
      }
      err, after := n.RRemove(next.rem.GetOr(""), nodes, t);
      if err {
        return;
      }
      assert |path| < |n.path|;
      after := DropChild(next.level, after, RetainTrie.RRemove(t, n.path, next.rem.GetOr("")).store);
    }

    /** Drops a child that has no children, whatever its message. */
    method DropChild(level: string, ghost nodes: RIndex, ghost t: RStore) returns (ghost after: RIndex)
      requires At(nodes, t) && Child(path, level) in t
      modifies this
      ensures At(after, Drop(t, Child(path, level)))
      ensures forall p <- after :: p in nodes && after[p] == nodes[p]
    {
      hide Linked;
      var n := ChildCount(level, nodes, t);
      after := nodes;
      if n == 0 {
        rnodes := rnodes - {level};
        after := nodes - {Child(path, level)};
        Unlinked(nodes, path, t, level);
      }
    }

    method ChildCount(level: string, ghost nodes: RIndex, ghost t: RStore) returns (count: nat)
      requires At(nodes, t) && Child(path, level) in t
      ensures level in rnodes
      ensures count == 0 <==> NoChild(t, Child(path, level))
    {
      ghost var c := Child(path, level);
      var n := rnodes[level];
      assert nodes[c] == n;
      forall k ensures c + [k] in t <==> k in n.rnodes { assert Child(c, k) == c + [k]; }
      count := |n.rnodes|;
    }

    // ---------- matching ----------

    /** Appends this node's message, if it has one. */
    method MatchHere(out: RMatched, ghost nodes: RIndex, ghost t: RStore) returns (ghost hits: seq<RHit>)
      requires At(nodes, t)
      modifies out
      ensures out.Grown(old(out.msgs), hits)
      ensures RReportOf(hits, t, iset{path})
    {
      out.NothingYet();
      hits := [];
      if msg.Some? {
        ghost var msgs0 := out.msgs;
        out.msgs := out.msgs + [msg.value];
        hits := [RHit(path, msg.value)];
        out.OneMore(msgs0, hits[0]);
        assert RReported(hits, path) by { assert hits[0].path == path; }
      }
    }

    method Levels(ghost nodes: RIndex, ghost t: RStore) returns (levels: set<string>)
      requires At(nodes, t)
      ensures forall k :: k in levels <==> Child(path, k) in t
    {
      levels := rnodes.Keys;
      assert forall k :: Child(path, k) in nodes <==> k in rnodes;
    }

    method AllRetained(out: RMatched, ghost nodes: RIndex, ghost t: RStore) returns (ghost hits: seq<RHit>)
      requires At(nodes, t) && Rooted(t)
      modifies out
      decreases Depth(t, path)
      ensures out.Grown(old(out.msgs), hits)
      ensures RReportOf(hits, t, AllBelow(path))
    {
      hide Linked, Holds, RReportOf, Rooted, AllBelow, Depth;
      hits := MatchHere(out, nodes, t);
      var todo := Levels(nodes, t);
      ghost var done: set<string> := {};
      BelowNone(path);
      while todo != {}
        invariant At(nodes, t)
        invariant forall k :: k in todo || k in done <==> Child(path, k) in t
        invariant todo !! done
        invariant out.Grown(old(out.msgs), hits)
        invariant RReportOf(hits, t, iset{path} + BelowLevels(path, done))
        decreases todo
      {
        var k :| k in todo;
        var n := Find(k, nodes, t);
        ghost var msgs1 := out.msgs;
        Deeper(t, path, k);
        ghost var more := n.AllRetained(out, nodes, t);
        out.Concat(old(out.msgs), msgs1, hits, more);
        JoinBelow(path, t, done, k, hits, more);
        hits := hits + more;
        todo, done := todo - {k}, done + {k};
      }
      AllBelowVisited(path, t, done, hits);
    }

    method RMatch(topic: string, out: RMatched, ghost nodes: RIndex, ghost t: RStore)
      returns (err: bool, ghost hits: seq<RHit>)
      requires At(nodes, t) && Rooted(t)
      modifies out
      decreases |topic|, 0
      ensures out.Grown(old(out.msgs), hits)
      ensures err ==> Walk(topic) == None
      ensures !err ==> RReportOf(hits, t, RetainedPaths(path, topic))
    {
      hide Linked, Holds, RReportOf, Rooted, AllBelow, RetainedPaths;
      RetainedShapes(path, topic);
      if |topic| == 0 {
        hits := MatchHere(out, nodes, t);
        return false, hits;
      }
      var next := NextTopicLevel(topic);
      out.NothingYet();
      NoHitsYet(t);
      if next.Malformed? {
        return true, [];
      }
      if next.level == MWC {
        hits := AllRetained(out, nodes, t);
        return false, hits;
      } else if next.level == SWC {
        err, hits := MatchLevels(next.rem.GetOr(""), out, nodes, t);
        return;
      } else {
        var n := Find(next.level, nodes, t);
        if n == null {
          NoneThere(path, next.level, next.rem.GetOr(""), t);
          return false, [];
        }
        err, hits := n.RMatch(next.rem.GetOr(""), out, nodes, t);
      }
    }

    /** The branch of '+': every child goes on with the rest of the filter. */
    method MatchLevels(rest: string, out: RMatched, ghost nodes: RIndex, ghost t: RStore)
      returns (err: bool, ghost hits: seq<RHit>)
      requires At(nodes, t) && Rooted(t)
      modifies out
      decreases |rest|, 1
      ensures out.Grown(old(out.msgs), hits)
      ensures err ==> Walk(rest) == None
      ensures !err ==> RReportOf(hits, t, OneLevelDown(path, rest))
    {
      hide Linked, Holds, RReportOf, Rooted, AllBelow, RetainedPaths, OneLevelDown, Walk;
      err, hits := false, [];
      out.NothingYet();
      NoHitsYet(t);
      var todo := Levels(nodes, t);
      ghost var done: set<string> := {};
      DownNone(path, rest);
      while todo != {}
        invariant At(nodes, t)
        invariant forall k :: k in todo || k in done <==> Child(path, k) in t
        invariant todo !! done
        invariant out.Grown(old(out.msgs), hits)
        invariant RReportOf(hits, t, DownLevels(path, rest, done))
        decreases todo
      {
        var k :| k in todo;
        var n := Find(k, nodes, t);
        ghost var msgs1 := out.msgs;
        ghost var more;
        err, more := n.RMatch(rest, out, nodes, t);
        out.Concat(old(out.msgs), msgs1, hits, more);
        if err {
          return true, hits + more;
        }
        JoinDown(path, rest, t, done, k, hits, more);
        hits := hits + more;
        todo, done := todo - {k}, done + {k};
      }
      AllDown(path, rest, t, done, hits);
    }
  }

  /** The slice that matching appends to, shared with its caller. */
  class RMatched {
    var msgs: seq<Message>

    constructor ()
      ensures msgs == []
    {
      msgs := [];
    }

    /** The slice is the former one with the hits behind it. */
    ghost predicate Grown(msgs0: seq<Message>, hits: seq<RHit>)
      reads this
    {
      msgs == msgs0 + MsgsOf(hits)
    }

    lemma NothingYet()
      ensures Grown(msgs, [])
    {
    }

    lemma OneMore(msgs0: seq<Message>, hit: RHit)
      requires msgs == msgs0 + [hit.msg]
      ensures Grown(msgs0, [hit])
    {
    }

    lemma Concat(msgs0: seq<Message>, msgs1: seq<Message>, a: seq<RHit>, b: seq<RHit>)
      requires msgs1 == msgs0 + MsgsOf(a) && Grown(msgs1, b)
      ensures Grown(msgs0, a + b)
    {
    }
  }

  ghost function MsgsOf(hits: seq<RHit>): seq<Message> {
    seq(|hits|, i requires 0 <= i < |hits| => hits[i].msg)
  }

  /** How many nodes lie from a node down. */
  ghost function Depth(t: RStore, at: Path): nat {
    |set p | p in t && StartsWith(p, at)|
  }

  lemma Deeper(t: RStore, at: Path, k: string)
    requires at in t
    ensures Depth(t, Child(at, k)) < Depth(t, at)
  {
    var below := set p | p in t && StartsWith(p, Child(at, k));
    var all := set p | p in t && StartsWith(p, at);
    forall p <- below ensures p in all {
      assert Child(at, k)[..|at|] == at;
    }
    assert at in all && at !in below;
    SmallerSet(below, all, at);
  }

  lemma SmallerSet(a: set<Path>, b: set<Path>, x: Path)
    requires a <= b && x in b && x !in a
    ensures |a| < |b|
  {
    assert b == a + (b - a);
    assert |b - a| > 0;
  }

  /** The paths from a node down through one of these levels. */
  ghost function BelowLevels(at: Path, levels: set<string>): iset<Path> {
    iset path | StartsWith(path, at) && |path| > |at| && path[|at|] in levels
  }

  /** The paths through one of these levels whose rest is retained for the rest of the filter. */
  ghost function DownLevels(at: Path, rest: string, levels: set<string>): iset<Path> {
    iset path | StartsWith(path, at) && |path| > |at| && path[|at|] in levels && RetainMatches(rest, path[|at| + 1..])
  }

  ghost function OneLevelDown(at: Path, rest: string): iset<Path> {
    iset path | StartsWith(path, at) && |path| > |at| && RetainMatches(rest, path[|at| + 1..])
  }

  lemma NoHitsYet(t: RStore)
    ensures RReportOf([], t, iset{})
  {
  }

  lemma BelowNone(at: Path)
    ensures iset{at} + BelowLevels(at, {}) == iset{at}
  {
  }

  lemma DownNone(at: Path, rest: string)
    ensures DownLevels(at, rest, {}) == iset{}
  {
  }

  lemma ThroughChild(at: Path, k: string, path: Path)
    ensures StartsWith(path, Child(at, k)) <==> StartsWith(path, at) && |path| > |at| && path[|at|] == k
    ensures StartsWith(path, Child(at, k)) ==> path[|Child(at, k)|..] == path[|at| + 1..]
  {
  }

  lemma JoinBelow(at: Path, t: RStore, done: set<string>, k: string, a: seq<RHit>, b: seq<RHit>)
    requires k !in done
    requires RReportOf(a, t, iset{at} + BelowLevels(at, done)) && RReportOf(b, t, AllBelow(Child(at, k)))
    ensures RReportOf(a + b, t, iset{at} + BelowLevels(at, done + {k}))
  {
    forall path ensures path in AllBelow(Child(at, k)) <==> path in BelowLevels(at, {k}) {
      ThroughChild(at, k, path);
    }
    JoinRReports(a, b, t, iset{at} + BelowLevels(at, done), AllBelow(Child(at, k)));
    assert iset{at} + BelowLevels(at, done) + AllBelow(Child(at, k)) == iset{at} + BelowLevels(at, done + {k});
  }

  lemma AllBelowVisited(at: Path, t: RStore, done: set<string>, hits: seq<RHit>)
    requires Rooted(t) && forall k :: k in done <==> Child(at, k) in t
    requires RReportOf(hits, t, iset{at} + BelowLevels(at, done))
    ensures RReportOf(hits, t, AllBelow(at))
  {
    forall path | path in AllBelow(at) ensures path in iset{at} + BelowLevels(at, done) || path !in t {
      assert |path| == |at| ==> path == at;
      if |path| > |at| && path[|at|] !in done {
        var k := path[|at|];
        ThroughChild(at, k, path);
        NothingBelow(t, Child(at, k), path[|at| + 1..]);
        assert path == Child(at, k) + path[|at| + 1..];
      }
    }
    SameRReport(hits, t, iset{at} + BelowLevels(at, done), AllBelow(at));
  }

  lemma JoinDown(at: Path, rest: string, t: RStore, done: set<string>, k: string, a: seq<RHit>, b: seq<RHit>)
    requires k !in done
    requires RReportOf(a, t, DownLevels(at, rest, done)) && RReportOf(b, t, RetainedPaths(Child(at, k), rest))
    ensures RReportOf(a + b, t, DownLevels(at, rest, done + {k}))
  {
    forall path ensures path in RetainedPaths(Child(at, k), rest) <==> path in DownLevels(at, rest, {k}) {
      ThroughChild(at, k, path);
    }
    JoinRReports(a, b, t, DownLevels(at, rest, done), RetainedPaths(Child(at, k), rest));
    assert DownLevels(at, rest, done) + RetainedPaths(Child(at, k), rest) == DownLevels(at, rest, done + {k});
  }

  lemma AllDown(at: Path, rest: string, t: RStore, done: set<string>, hits: seq<RHit>)
    requires Rooted(t) && forall k :: k in done <==> Child(at, k) in t
    requires RReportOf(hits, t, DownLevels(at, rest, done))
    ensures RReportOf(hits, t, OneLevelDown(at, rest))
  {
    forall path | path in OneLevelDown(at, rest) ensures path in DownLevels(at, rest, done) || path !in t {
      var k := path[|at|];
      if k !in done {
        ThroughChild(at, k, path);
        NothingBelow(t, Child(at, k), path[|at| + 1..]);
        assert path == Child(at, k) + path[|at| + 1..];
      }
    }
    SameRReport(hits, t, DownLevels(at, rest, done), OneLevelDown(at, rest));
  }

  lemma NoneThere(at: Path, level: string, rest: string, t: RStore)
    requires Rooted(t) && Child(at, level) !in t
    ensures RReportOf([], t, RetainedPaths(Child(at, level), rest))
  {
    forall path | path in RetainedPaths(Child(at, level), rest) ensures path !in t {
      NothingBelow(t, Child(at, level), path[|Child(at, level)|..]);
      assert path == Child(at, level) + path[|Child(at, level)|..];
    }
  }

  /** The topics retained for a filter, by the branch rmatch takes. */
  lemma RetainedShapes(at: Path, topic: string)
    ensures topic == "" ==> RetainedPaths(at, topic) == iset{at}
    ensures topic != "" && NextLevel(topic).Malformed? ==> Walk(topic) == None
    ensures topic != "" && NextLevel(topic).Level? ==>
      var next := NextLevel(topic); var rest := next.rem.GetOr("");
      && RetainedPaths(at, topic) == (
        if next.level == MWC then AllBelow(at)
        else if next.level == SWC then OneLevelDown(at, rest)
        else RetainedPaths(Child(at, next.level), rest))
      && (Walk(rest) == None ==> Walk(topic) == None)
  {
    if topic == "" {
      forall path ensures path in RetainedPaths(at, topic) <==> path == at {
        if StartsWith(path, at) { assert path == at + path[|at|..]; assert at + [] == at; }
      }
    } else if NextLevel(topic).Level? {
      var next := NextLevel(topic);
      var rest := next.rem.GetOr("");
      var paths :=
        if next.level == MWC then AllBelow(at)
        else if next.level == SWC then OneLevelDown(at, rest)
        else RetainedPaths(Child(at, next.level), rest);
      forall path ensures path in RetainedPaths(at, topic) <==> path in paths {
        ThroughChild(at, next.level, path);
        if StartsWith(path, at) && |path| > |at| {
          assert path[|at|..][1..] == path[|at| + 1..];
        }
      }
    }
  }
}
