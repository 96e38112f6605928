/**
  The subscription trie on the heap: snode of memtopics.go. The nodes of one trie are kept,
  as a ghost, in an index by the levels that lead to them; each method says how the store
  of SubTrie that the nodes hold changes.
 */
module SNodes {
  import opened Options
  import opened Paths
  import opened TopicLevels
  import opened TopicMatch
  import SubTrie
  import opened SubTrieTypes = SubTrie

  type Index = map<Path, SNode>

  /** The two slices of a node, entry by entry the grants. */
  predicate Aligned(subs: seq<Subscriber>, qos: seq<Sub>, grants: seq<Grant>) {
    && |subs| == |qos| == |grants|
    && forall i :: 0 <= i < |grants| ==> grants[i] == Grant(subs[i], qos[i])
  }

  lemma DropAligned(subs: seq<Subscriber>, qos: seq<Sub>, grants: seq<Grant>, i: nat)
    requires Aligned(subs, qos, grants) && i < |grants|
    ensures Aligned(subs[..i] + subs[i + 1..], qos[..i] + qos[i + 1..], grants[..i] + grants[i + 1..])
  {
  }

  /** The children of a node are the nodes of the index one level down. */
  ghost predicate Linked(nodes: Index)
    reads nodes.Values
  {
    && (forall p <- nodes :: nodes[p].path == p)
    && (forall p, k :: Child(p, k) in nodes ==> p in nodes && k in nodes[p].snodes)
    && (forall p <- nodes, k <- nodes[p].snodes :: Child(p, k) in nodes && nodes[Child(p, k)] == nodes[p].snodes[k])
  }

  /** The nodes hold the store. */
  ghost predicate Holds(nodes: Index, t: Store)
    reads nodes.Values
  {
    && nodes.Keys == t.Keys
    && forall p <- nodes :: Aligned(nodes[p].subs, nodes[p].qos, t[p])
  }

  /** After a change of one node's subscribers alone. */
  twostate lemma Regranted(nodes: Index, new at: Path, new t: Store, new grants: seq<Grant>)
    requires old(Linked(nodes)) && old(Holds(nodes, t)) && at in nodes
    requires forall p <- nodes :: nodes[p] == nodes[at] || unchanged(nodes[p])
    requires nodes[at].snodes == old(nodes[at].snodes)
    requires Aligned(nodes[at].subs, nodes[at].qos, grants)
    ensures Linked(nodes) && Holds(nodes, t[at := grants])
  {
  }

  /** After a bare child is dropped from one node. */
  twostate lemma Unlinked(nodes: Index, new at: Path, new t: Store, new level: string)
    requires old(Linked(nodes)) && old(Holds(nodes, t)) && at in nodes
    requires forall p <- nodes :: nodes[p] == nodes[at] || unchanged(nodes[p])
    requires Child(at, level) in t && Bare(t, Child(at, level))
    requires nodes[at].snodes == old(nodes[at].snodes) - {level}
    requires nodes[at].subs == old(nodes[at].subs)
    requires nodes[at].qos == old(nodes[at].qos)
    ensures Linked(nodes - {Child(at, level)}) && Holds(nodes - {Child(at, level)}, t - {Child(at, level)})
  {
    var c := Child(at, level);
    forall p, k ensures Child(p, k) == c <==> p == at && k == level {
      SnocEqual(p, k, at, level);
    }
    forall k ensures Child(c, k) !in t { assert Child(c, k) == c + [k]; }
  }

  class SNode {
    var subs: seq<Subscriber>
    var qos: seq<Sub>
    var snodes: map<string, SNode>
    ghost const path: Path

    constructor (ghost path: Path)
      ensures subs == [] && qos == [] && snodes == map[]
      ensures this.path == path
    {
      subs, qos, snodes := [], [], map[];
      this.path := path;
    }

    /** This node in the trie with these nodes and this store. */
    ghost predicate At(nodes: Index, t: Store)
      reads nodes.Values
    {
      path in nodes && nodes[path] == this && nodes.Keys == t.Keys && Linked(nodes) && Holds(nodes, t)
    }

    /** Adds an empty child. */
    method AddChild(level: string, ghost nodes: Index, ghost t: Store) returns (n: SNode, ghost after: Index)
      requires At(nodes, t) && level !in snodes
      modifies this
      ensures fresh(n) && after == nodes[Child(path, level) := n]
      ensures n.path == Child(path, level) && n.At(after, t[Child(path, level) := []])
    {
      assert Child(path, level) !in nodes;
      n := new SNode(Child(path, level));
      snodes := snodes[level := n];
      after := nodes[Child(path, level) := n];
      forall p, k ensures Child(p, k) == Child(path, level) <==> p == path && k == level {
        SnocEqual(p, k, path, level);
      }
    }

    /** The child at a level, made if there is none. */
    method ChildFor(level: string, ghost nodes: Index, ghost t: Store)
      returns (n: SNode, ghost after: Index, ghost t': Store)
      requires At(nodes, t)
      modifies this
      ensures t' == if Child(path, level) in t then t else t[Child(path, level) := []]
      ensures n.path == Child(path, level) && n.At(after, t')
      ensures forall p <- nodes :: p in after && after[p] == nodes[p]
      ensures forall p <- after :: p in nodes || fresh(after[p])
    {
      assert Child(path, level) in nodes <==> level in snodes;
      if level in snodes {
        n, after, t' := snodes[level], nodes, t;
      } else {
        n, after := AddChild(level, nodes, t);
        t' := t[Child(path, level) := []];
      }
    }

    method SInsert(subs: Sub, sub: Subscriber, ghost nodes: Index, ghost t: Store)
      returns (err: bool, ghost after: Index)
      requires At(nodes, t)
      modifies nodes.Values
      decreases |subs.topic|
      ensures At(after, SubTrie.SInsert(t, path, subs, sub))
      ensures forall p <- nodes :: p in after && after[p] == nodes[p]
      ensures forall p <- after :: p in nodes || fresh(after[p])
      ensures err <==> Walk(subs.topic) == None
    {
      hide Linked, Holds;
      if |subs.topic| == 0 {
        InsertHere(subs, sub, nodes, t);
        return false, nodes;
      }
      var next := NextTopicLevel(subs.topic);
      if next.Malformed? {
        return true, nodes;
      }
      var n, nodes0, t0 := ChildFor(next.level, nodes, t);
      err, after := n.SInsert(subs.(topic := next.rem.GetOr("")), sub, nodes0, t0);
    }

    /** The place of a subscriber at this node. */
    method Position(sub: Subscriber, ghost nodes: Index, ghost t: Store) returns (i: nat)
      requires At(nodes, t)
      ensures i == IndexOf(t[path], sub) && Aligned(subs, qos, t[path])
    {
      i := 0;
      while i < |subs| && subs[i] != sub
        invariant i <= |subs|
        invariant forall j :: 0 <= j < i ==> t[path][j].who != sub
      {
        i := i + 1;
      }
    }

    /** The end of the filter: renew the subscriber's entry or append one. */
    method InsertHere(subs: Sub, sub: Subscriber, ghost nodes: Index, ghost t: Store)
      requires At(nodes, t) && subs.topic == ""
      modifies this
      ensures At(nodes, SubTrie.SInsert(t, path, subs, sub))
    {
      hide Linked, Holds;
      var i := Position(sub, nodes, t);
      if i < |this.subs| {
        qos := qos[i := subs];
      } else {
        this.subs := this.subs + [sub];
        qos := qos + [subs];
      }
      assert Aligned(this.subs, qos, Upsert(t[path], Grant(sub, subs)));
      Regranted(nodes, path, t, Upsert(t[path], Grant(sub, subs)));
    }

    method SRemove(topic: string, sub: Option<Subscriber>, ghost nodes: Index, ghost t: Store)
      returns (err: bool, ghost after: Index)
      requires At(nodes, t)
      modifies nodes.Values
      decreases |topic|
      ensures err <==> SubTrie.SRemove(t, path, topic, sub).Refused?
      ensures err ==> after == nodes && At(nodes, t) && forall p <- nodes :: unchanged(nodes[p])
      ensures !err ==> At(after, SubTrie.SRemove(t, path, topic, sub).store)
      ensures forall p <- after :: p in nodes && after[p] == nodes[p]
    {
      hide Linked, Holds;
      if |topic| == 0 {
        err := RemoveHere(sub, nodes, t);
        return err, nodes;
      }
      var next := NextTopicLevel(topic);
      if next.Malformed? {
        return true, nodes;
      }
      var n := Find(next.level, nodes, t);
      if n == null {
        return true, nodes;
      }
      err, after := n.SRemove(next.rem.GetOr(""), sub, nodes, t);
      if err {
        return;
      }
      assert |path| < |n.path|;
      after := PruneChild(next.level, after, SubTrie.SRemove(t, n.path, next.rem.GetOr(""), sub).store);
    }

    /** The child at a level, if any. */
    method Find(level: string, ghost nodes: Index, ghost t: Store) returns (n: SNode?)
      requires At(nodes, t)
      ensures n == null <==> Child(path, level) !in t
      ensures n != null ==> n.path == Child(path, level) && n.At(nodes, t)
    {
      assert Child(path, level) in nodes <==> level in snodes;
      n := if level in snodes then snodes[level] else null;
    }

    /** Drops a child that has neither subscribers nor children. */
    method PruneChild(level: string, ghost nodes: Index, ghost t: Store) returns (ghost after: Index)
      requires At(nodes, t) && Child(path, level) in t
      modifies this
      ensures At(after, Prune(t, Child(path, level)))
      ensures forall p <- after :: p in nodes && after[p] == nodes[p]
    {
      hide Linked, Holds;
      var n := ChildBare(level, nodes, t);
      after := nodes;
      if |n.subs| == 0 && |n.snodes| == 0 {
        snodes := snodes - {level};
        after := nodes - {Child(path, level)};
        Unlinked(nodes, path, t, level);
      }
    }

    method ChildBare(level: string, ghost nodes: Index, ghost t: Store) returns (n: SNode)
      requires At(nodes, t) && Child(path, level) in t
      ensures level in snodes && n == snodes[level]
      ensures |n.subs| == 0 && |n.snodes| == 0 <==> Bare(t, Child(path, level))
    {
      ghost var c := Child(path, level);
      n := snodes[level];
      assert nodes[c] == n;
      forall k ensures c + [k] in t <==> k in n.snodes { assert Child(c, k) == c + [k]; }
    }

    /** The end of the filter: drop the subscriber's entry, or all of them. */
    method RemoveHere(sub: Option<Subscriber>, ghost nodes: Index, ghost t: Store) returns (err: bool)
      requires At(nodes, t)
      modifies this
      ensures err <==> SubTrie.SRemove(t, path, "", sub).Refused?
      ensures err ==> unchanged(this) && At(nodes, t)
      ensures !err ==> At(nodes, SubTrie.SRemove(t, path, "", sub).store)
    {
      hide Linked, Holds;
      if sub == None {
        subs, qos := [], [];
        Regranted(nodes, path, t, []);
        return false;
      }
      var i := Position(sub.value, nodes, t);
      if i < |subs| {
        DropAligned(subs, qos, t[path], i);
        subs := subs[..i] + subs[i + 1..];
        qos := qos[..i] + qos[i + 1..];
        Regranted(nodes, path, t, Without(t[path], sub.value));
        return false;
      }
      return true;
    }

    // ---------- matching ----------

    lemma Entries(nodes: Index, t: Store)
      requires At(nodes, t)
      ensures Aligned(subs, qos, t[path])
    {
    }

    /** Appends this node's subscribers, each with the lower QoS. */
    method MatchQos(qos: nat, out: Matched, ghost nodes: Index, ghost t: Store) returns (ghost hits: seq<Hit>)
      requires At(nodes, t)
      modifies out
      ensures out.Grown(old(out.subs), old(out.qoss), hits)
      ensures Sound(t) ==> IsReportOf(hits, t, iset{path}, qos)
      ensures var n, grants := |old(out.subs)|, t[path];
        && |out.subs| == n + |grants| && out.subs[..n] == old(out.subs)
        && forall i :: 0 <= i < |grants| ==> out.subs[n + i] == grants[i].who
      ensures var n, grants := |old(out.qoss)|, t[path];
        && |out.qoss| == n + |grants| && out.qoss[..n] == old(out.qoss)
        && forall i :: 0 <= i < |grants| ==>
          var given, sub := grants[i].sub, out.qoss[n + i];
          sub == given.(qos := sub.qos) && sub.qos <= qos && sub.qos <= given.qos && sub.qos in {qos, given.qos}
    {
      hide Linked, Holds, WhosOf, SubsOf;
      hits := [];
      Entries(nodes, t);
      out.NothingYet();
      var i := 0;
      while i < |subs|
        invariant i <= |subs| && At(nodes, t) && Aligned(subs, this.qos, t[path])
        invariant hits == HitsAt(path, t[path], qos, i)
        invariant out.Grown(old(out.subs), old(out.qoss), hits)
      {
        var given := this.qos[i];
        ghost var subs1, qoss1 := out.subs, out.qoss;
        ghost var hit := Hit(path, subs[i], Deliver(given, qos));
        if qos <= given.qos {
          out.qoss := out.qoss + [given.(qos := qos)];
        } else {
          out.qoss := out.qoss + [given];
        }
        out.subs := out.subs + [subs[i]];
        out.OneMore(subs1, qoss1, hit);
        out.Concat(old(out.subs), old(out.qoss), subs1, qoss1, hits, [hit]);
        hits := hits + [hit];
        i := i + 1;
      }
      if Sound(t) {
        HitsReport(path, t, qos);
      }
      HitsOut(path, t[path], qos);
    }

    /** The same for a child, if there is one. */
    method MatchChild(level: string, qos: nat, out: Matched, ghost nodes: Index, ghost t: Store)
      returns (ghost hits: seq<Hit>)
      requires At(nodes, t)
      modifies out
      ensures out.Grown(old(out.subs), old(out.qoss), hits)
      ensures Sound(t) ==> IsReportOf(hits, t, iset{Child(path, level)}, qos)
    {
      hide Linked, Holds;
      var n := Find(level, nodes, t);
      hits := [];
      out.NothingYet();
      if n != null {
        hits := n.MatchQos(qos, out, nodes, t);
      }
    }

    method SMatch(topic: string, qos: nat, out: Matched, ghost nodes: Index, ghost t: Store)
      returns (err: bool, ghost hits: seq<Hit>)
      requires At(nodes, t) && Sound(t)
      modifies out
      decreases |topic|, 1
      ensures out.Grown(old(out.subs), old(out.qoss), hits)
      ensures err ==> Walk(topic) == None
      ensures !err ==> IsReport(hits, t, path, topic, qos)
    {
      hide Linked, Holds, Sound, IsReport, IsReportOf, Visited, WhosOf, SubsOf, Walk;
      out.NothingYet();
      if |topic| == 0 {
        hits := MatchAtEnd(qos, out, nodes, t);
        return false, hits;
      }
      var next := NextTopicLevel(topic);
      if next.Malformed? {
        assert Walk(topic) == None by { FailedWalk(topic); }
        return true, [];
      }
      err := false;
      hits := [];
      NoHits(path, topic, t, qos);
      var todo := Levels(nodes, t);
      ghost var done: set<string> := {};
      while todo != {}
        invariant At(nodes, t)
        invariant forall k :: k in todo || k in done <==> Child(path, k) in t
        invariant todo !! done
        invariant out.Grown(old(out.subs), old(out.qoss), hits)
        invariant IsReportOf(hits, t, Visited(path, topic, done), qos)
        decreases todo
      {
        var k :| k in todo;
        ghost var more;
        ghost var subs0, qoss0 := out.subs, out.qoss;
        err, more := MatchLevel(k, topic, next, qos, out, nodes, t);
        out.Concat(old(out.subs), old(out.qoss), subs0, qoss0, hits, more);
        if err {
          return true, hits + more;
        }
        JoinLevel(path, topic, t, qos, done, k, hits, more);
        hits := hits + more;
        todo, done := todo - {k}, done + {k};
      }
      AllVisited(path, topic, t, qos, done, hits);
    }

    /** At an exhausted topic: this node, its '#' and its '+'. */
    method MatchAtEnd(qos: nat, out: Matched, ghost nodes: Index, ghost t: Store) returns (ghost hits: seq<Hit>)
      requires At(nodes, t) && Sound(t)
      modifies out
      ensures out.Grown(old(out.subs), old(out.qoss), hits)
      ensures IsReport(hits, t, path, "", qos)
    {
      hide Linked, Holds, Sound, IsReport, IsReportOf, WhosOf, SubsOf;
      hits := MatchQos(qos, out, nodes, t);
      ghost var subs1, qoss1 := out.subs, out.qoss;
      ghost var more := MatchChild(MWC, qos, out, nodes, t);
      out.Concat(old(out.subs), old(out.qoss), subs1, qoss1, hits, more);
      ghost var subs2, qoss2 := out.subs, out.qoss;
      ghost var last := MatchChild(SWC, qos, out, nodes, t);
      out.Concat(old(out.subs), old(out.qoss), subs2, qoss2, hits + more, last);
      JoinAtEnd(path, t, qos, hits, more, last);
      hits := hits + more + last;
    }

    method Levels(ghost nodes: Index, ghost t: Store) returns (levels: set<string>)
      requires At(nodes, t)
      ensures forall k :: k in levels <==> Child(path, k) in t
    {
      levels := snodes.Keys;
      assert forall k :: Child(path, k) in nodes <==> k in snodes;
    }

    /** One turn of the loop over the children. */
    method MatchLevel(k: string, topic: string, next: Next, qos: nat, out: Matched, ghost nodes: Index, ghost t: Store)
      returns (err: bool, ghost hits: seq<Hit>)
      requires At(nodes, t) && Sound(t) && Child(path, k) in t
      requires topic != "" && next == NextLevel(topic) && next.Level?
      modifies out
      decreases |topic|, 0
      ensures out.Grown(old(out.subs), old(out.qoss), hits)
      ensures err ==> Walk(topic) == None
      ensures !err ==> IsReportOf(hits, t, Visited(path, topic, {k}), qos)
    {
      hide Linked, Holds, Sound, IsReportOf, Visited, PathsBelow, WhosOf, SubsOf, Walk;
      err, hits := false, [];
      out.NothingYet();
      LevelPaths(path, topic, k);
      NoHits(path, topic, t, qos);
      var n := Find(k, nodes, t);
      if k == MWC {
        hits := n.MatchQos(qos, out, nodes, t);
      } else if k == SWC || k == next.level {
        if next.rem.Some? {
          err, hits := n.SMatch(next.rem.value, qos, out, nodes, t);
        } else {
          hits := n.MatchQos(qos, out, nodes, t);
          ghost var subs1, qoss1 := out.subs, out.qoss;
          ghost var more := n.MatchChild(MWC, qos, out, nodes, t);
          JoinReports(hits, more, t, iset{n.path}, iset{Child(n.path, MWC)}, qos);
          out.Concat(old(out.subs), old(out.qoss), subs1, qoss1, hits, more);
          hits := hits + more;
        }
      }
    }
  }

  /** The two slices that matching appends to, shared with its caller. */
  class Matched {
    var subs: seq<Subscriber>
    var qoss: seq<Sub>

    constructor ()
      ensures subs == [] && qoss == []
    {
      subs, qoss := [], [];
    }

    /** The slices are the former ones with the hits behind them. */
    ghost predicate Grown(subs0: seq<Subscriber>, qoss0: seq<Sub>, hits: seq<Hit>)
      reads this
    {
      && subs == subs0 + WhosOf(hits)
      && qoss == qoss0 + SubsOf(hits)
    }

    lemma NothingYet()
      ensures Grown(subs, qoss, [])
    {
    }

    lemma OneMore(subs0: seq<Subscriber>, qoss0: seq<Sub>, hit: Hit)
      requires subs == subs0 + [hit.who] && qoss == qoss0 + [hit.sub]
      ensures Grown(subs0, qoss0, [hit])
    {
    }

    lemma Concat(subs0: seq<Subscriber>, qoss0: seq<Sub>, subs1: seq<Subscriber>, qoss1: seq<Sub>, a: seq<Hit>,
                 b: seq<Hit>)
      requires subs1 == subs0 + WhosOf(a) && qoss1 == qoss0 + SubsOf(a)
      requires Grown(subs1, qoss1, b)
      ensures Grown(subs0, qoss0, a + b)
    {
    }
  }

  ghost function WhosOf(hits: seq<Hit>): seq<Subscriber> {
    seq(|hits|, i requires 0 <= i < |hits| => hits[i].who)
  }

  ghost function SubsOf(hits: seq<Hit>): seq<Sub> {
    seq(|hits|, i requires 0 <= i < |hits| => hits[i].sub)
  }

  ghost function HitsAt(at: Path, grants: seq<Grant>, qos: nat, n: nat): seq<Hit>
    requires n <= |grants|
  {
    seq(n, i requires 0 <= i < n => Hit(at, grants[i].who, Deliver(grants[i].sub, qos)))
  }

  /** What the hits put into the two slices. */
  lemma HitsOut(at: Path, grants: seq<Grant>, qos: nat)
    ensures var whos := WhosOf(HitsAt(at, grants, qos, |grants|));
      |whos| == |grants| && forall i :: 0 <= i < |grants| ==> whos[i] == grants[i].who
    ensures var subs := SubsOf(HitsAt(at, grants, qos, |grants|));
      |subs| == |grants| && forall i :: 0 <= i < |grants| ==> subs[i] == Deliver(grants[i].sub, qos)
  {
  }

  lemma HitsReport(at: Path, t: Store, qos: nat)
    requires at in t && Distinct(t[at])
    ensures IsReportOf(HitsAt(at, t[at], qos, |t[at]|), t, iset{at}, qos)
  {
    var hits := HitsAt(at, t[at], qos, |t[at]|);
    forall i | 0 <= i < |hits| ensures HitGood(hits[i], t, qos) {
      IndexUnique(t[at], hits[i].who, i);
    }
    forall who | Lookup(t, at, who).Some? ensures Reported(hits, at, who) {
      assert hits[IndexOf(t[at], who)].who == who;
    }
  }

  /** The reported filters that go on with one of these levels. */
  ghost function Visited(at: Path, topic: string, levels: set<string>): iset<Path> {
    iset path | ReportedBelow(at, path, topic) && |path| > |at| && path[|at|] in levels
  }

  lemma NoHits(at: Path, topic: string, t: Store, qos: nat)
    ensures IsReportOf([], t, Visited(at, topic, {}), qos)
    ensures IsReportOf([], t, iset{}, qos)
  {
  }

  lemma FailedWalk(topic: string)
    requires topic != "" && NextLevel(topic).Malformed?
    ensures Walk(topic) == None
  {
  }

  lemma JoinAtEnd(at: Path, t: Store, qos: nat, a: seq<Hit>, b: seq<Hit>, c: seq<Hit>)
    requires IsReportOf(a, t, iset{at}, qos)
    requires IsReportOf(b, t, iset{Child(at, MWC)}, qos)
    requires IsReportOf(c, t, iset{Child(at, SWC)}, qos)
    ensures IsReport(a + b + c, t, at, "", qos)
  {
    JoinReports(a, b, t, iset{at}, iset{Child(at, MWC)}, qos);
    SnocEqual(at, MWC, at, SWC);
    JoinReports(a + b, c, t, iset{at} + iset{Child(at, MWC)}, iset{Child(at, SWC)}, qos);
    var paths := iset{at} + iset{Child(at, MWC)} + iset{Child(at, SWC)};
    forall path ensures path in paths <==> ReportedBelow(at, path, "") {
      if at <= path {
        assert path == at + path[|at|..];
        assert at + [] == at;
      }
    }
    assert paths == PathsBelow(at, "");
  }

  lemma JoinLevel(at: Path, topic: string, t: Store, qos: nat, done: set<string>, k: string, a: seq<Hit>, b: seq<Hit>)
    requires k !in done
    requires IsReportOf(a, t, Visited(at, topic, done), qos)
    requires IsReportOf(b, t, Visited(at, topic, {k}), qos)
    ensures IsReportOf(a + b, t, Visited(at, topic, done + {k}), qos)
  {
    JoinReports(a, b, t, Visited(at, topic, done), Visited(at, topic, {k}), qos);
    assert Visited(at, topic, done) + Visited(at, topic, {k}) == Visited(at, topic, done + {k});
  }

  lemma AllVisited(at: Path, topic: string, t: Store, qos: nat, done: set<string>, hits: seq<Hit>)
    requires Sound(t) && topic != ""
    requires forall k :: k in done <==> Child(at, k) in t
    requires IsReportOf(hits, t, Visited(at, topic, done), qos)
    ensures IsReport(hits, t, at, topic, qos)
  {
    forall path | path in PathsBelow(at, topic) ensures path in Visited(at, topic, done) || path !in t {
      assert path == at + path[|at|..];
      assert path[|at|..] != [];
      var k := path[|at|];
      if k !in done {
        NothingBelow(t, Child(at, k), path[|at| + 1..]);
        assert path == Child(at, k) + path[|at| + 1..];
      }
    }
    SameReport(hits, t, Visited(at, topic, done), PathsBelow(at, topic), qos);
  }

  /** The filters reported through one child, by the branch the loop takes. */
  lemma LevelPaths(at: Path, topic: string, k: string)
    requires topic != "" && NextLevel(topic).Level?
    ensures var next := NextLevel(topic);
      Visited(at, topic, {k}) ==
        if k == MWC then iset{Child(at, k)}
        else if k == SWC || k == next.level then
          if next.rem.Some? then PathsBelow(Child(at, k), next.rem.value)
          else iset{Child(at, k)} + iset{Child(Child(at, k), MWC)}
        else iset{}
    ensures NextLevel(topic).rem.Some? && Walk(NextLevel(topic).rem.value) == None ==> Walk(topic) == None
  {
    var next := NextLevel(topic);
    var c := Child(at, k);
    forall path ensures path in Visited(at, topic, {k}) <==>
      c <= path && PublishMatches([k] + path[|c|..], topic)
    {
      if at <= path && |path| > |at| && path[|at|] == k {
        assert path[|at|..] == [k] + path[|c|..];
        assert c <= path;
      }
      if c <= path {
        assert at == c[..|at|] <= path;
        assert path[|at|] == c[|at|] == k;
        assert path[|at|..] == [k] + path[|c|..];
      }
    }
    forall path | c <= path
      ensures path == c + path[|c|..]
      ensures ([k] + path[|c|..])[1..] == path[|c|..]
    {
    }
    assert c + [] == c && Child(c, MWC)[|c|..] == [MWC] && c[|c|..] == [];
    assert c <= Child(c, MWC);
  }
}
