/**
  The cluster's node map on the heap: rSnode of tmn.go. As in the subscription trie the
  nodes are kept, as a ghost, in an index by the levels that lead to them.
 */
module NodeMap {
  import opened Options
  import opened Paths
  import opened TopicLevels
  import opened TopicMatch
  import opened NodeWeightTypes = NodeWeights
  import NodeWeights

  type Index = map<Path, RSNode>

  ghost predicate Linked(nodes: Index)
    reads nodes.Values
  {
    && (forall p <- nodes :: nodes[p].path == p)
    && (forall p, k :: Child(p, k) in nodes ==> p in nodes && k in nodes[p].rsnodes)
    && (forall p <- nodes, k <- nodes[p].rsnodes :: Child(p, k) in nodes && nodes[Child(p, k)] == nodes[p].rsnodes[k])
  }

  ghost predicate Holds(nodes: Index, t: Store)
    reads nodes.Values
  {
    && nodes.Keys == t.Keys
    && forall p <- nodes :: nodes[p].tmn == t[p]
  }

  /** After a change of one node's groups alone. */
  twostate lemma Regrouped(nodes: Index, new at: Path, new t: Store, new groups: Groups)
    requires old(Linked(nodes)) && old(Holds(nodes, t)) && at in nodes
    requires forall p <- nodes :: nodes[p] == nodes[at] || unchanged(nodes[p])
    requires nodes[at].rsnodes == old(nodes[at].rsnodes) && nodes[at].tmn == groups
    ensures Linked(nodes) && Holds(nodes, t[at := groups])
  {
  }

  /** After a bare child is dropped from one node. */
  twostate lemma Unlinked(nodes: Index, new at: Path, new t: Store, new level: string)
    requires old(Linked(nodes)) && old(Holds(nodes, t)) && at in nodes
    requires forall p <- nodes :: nodes[p] == nodes[at] || unchanged(nodes[p])
    requires Child(at, level) in t && Bare(t, Child(at, level))
    requires nodes[at].rsnodes == old(nodes[at].rsnodes) - {level} && nodes[at].tmn == old(nodes[at].tmn)
    ensures Linked(nodes - {Child(at, level)}) && Holds(nodes - {Child(at, level)}, t - {Child(at, level)})
  {
    var c := Child(at, level);
    forall p, k ensures Child(p, k) == c <==> p == at && k == level {
      SnocEqual(p, k, at, level);
    }
    forall k ensures Child(c, k) !in t { assert Child(c, k) == c + [k]; }
  }

  class RSNode {
    var tmn: Groups
    var rsnodes: map<string, RSNode>
    ghost const path: Path

    constructor (ghost path: Path)
      ensures tmn == map[] && rsnodes == map[] && this.path == path
    {
      tmn, rsnodes := map[], map[];
      this.path := path;
    }

    ghost predicate At(nodes: Index, t: Store)
      reads nodes.Values
    {
      path in nodes && nodes[path] == this && nodes.Keys == t.Keys && Linked(nodes) && Holds(nodes, t)
    }

    /** The child at a level, if any. */
    method Find(level: string, ghost nodes: Index, ghost t: Store) returns (n: RSNode?)
      requires At(nodes, t)
      ensures n == null <==> Child(path, level) !in t
      ensures n != null ==> n.path == Child(path, level) && n.At(nodes, t)
    {
      assert Child(path, level) in nodes <==> level in rsnodes;
      n := if level in rsnodes then rsnodes[level] else null;
    }

    /** Adds an empty child. */
    method AddChild(level: string, ghost nodes: Index, ghost t: Store) returns (n: RSNode, ghost after: Index)
      requires At(nodes, t) && Child(path, level) !in t
      modifies this
      ensures fresh(n) && after == nodes[Child(path, level) := n]
      ensures n.path == Child(path, level) && n.At(after, t[Child(path, level) := map[]])
    {
      assert Child(path, level) !in nodes;
      n := new RSNode(Child(path, level));
      rsnodes := rsnodes[level := n];
      after := nodes[Child(path, level) := n];
      forall p, k ensures Child(p, k) == Child(path, level) <==> p == path && k == level {
        SnocEqual(p, k, path, level);
      }
    }

    /** The child at a level, made if there is none. */
    method ChildFor(level: string, ghost nodes: Index, ghost t: Store)
      returns (n: RSNode, ghost after: Index, ghost t': Store)
      requires At(nodes, t)
      modifies this
      ensures t' == if Child(path, level) in t then t else t[Child(path, level) := map[]]
      ensures n.path == Child(path, level) && n.At(after, t')
      ensures forall p <- nodes :: p in after && after[p] == nodes[p]
      ensures forall p <- after :: p in nodes || fresh(after[p])
    {
      assert Child(path, level) in nodes <==> level in rsnodes;
      if level in rsnodes {
        n, after, t' := rsnodes[level], nodes, t;
      } else {
        n, after := AddChild(level, nodes, t);
        t' := t[Child(path, level) := map[]];
      }
    }

    /** The place of a node in a group. */
    method Position(v: seq<NodeWeight>, node: string) returns (i: nat)
      ensures i == IndexOf(v, node)
    {
      i := 0;
      while i < |v| && v[i].node != node
        invariant i <= |v|
        invariant forall j :: 0 <= j < i ==> v[j].node != node
      {
        i := i + 1;
      }
    }

    method SInsert(topic: string, share: string, node: string, num: nat, ghost nodes: Index, ghost t: Store)
      returns (err: bool, ghost after: Index)
      requires At(nodes, t)
      modifies nodes.Values
      decreases |topic|
      ensures At(after, NodeWeights.SInsert(t, path, topic, share, node, num))
      ensures forall p <- nodes :: p in after && after[p] == nodes[p]
      ensures forall p <- after :: p in nodes || fresh(after[p])
      ensures err <==> Walk(topic) == None
    {
      hide Linked, Holds;
      if |topic| == 0 {
        InsertHere(share, node, num, nodes, t);
        return false, nodes;
      }
      var next := NextTopicLevel(topic);
      if next.Malformed? {
        return true, nodes;
      }
      var n, nodes0, t0 := ChildFor(next.level, nodes, t);
      err, after := n.SInsert(next.rem.GetOr(""), share, node, num, nodes0, t0);
    }

    method InsertHere(share: string, node: string, num: nat, ghost nodes: Index, ghost t: Store)
      requires At(nodes, t)
      modifies this
      ensures At(nodes, NodeWeights.SInsert(t, path, "", share, node, num))
    {
      assert tmn == t[path];
      hide Linked, Holds;
      var v := if share in tmn then tmn[share] else [];
      assert v == GroupAt(t, path, share);
      var i := Position(v, node);
      if share in tmn && i < |v| {
        tmn := tmn[share := v[i := NodeWeight(node, v[i].weight + num)]];
      } else {
        v := v + [NodeWeight(node, num)];
        tmn := tmn[share := v];
      }
      Regrouped(nodes, path, t, t[path][share := Raised(GroupAt(t, path, share), node, num)]);
    }

    method SRemove(topic: string, share: string, node: string, ghost nodes: Index, ghost t: Store)
      returns (err: bool, ghost after: Index)
      requires At(nodes, t) && Sound(t)
      modifies nodes.Values
      decreases |topic|
      ensures err <==> NodeWeights.SRemove(t, path, topic, share, node).Refused?
      ensures err ==> after == nodes && At(nodes, t) && forall p <- nodes :: unchanged(nodes[p])
      ensures !err ==> At(after, NodeWeights.SRemove(t, path, topic, share, node).store)
      ensures forall p <- after :: p in nodes && after[p] == nodes[p]
    {
      hide Linked, Holds, Sound;
      if |topic| == 0 {
        err := RemoveHere(share, node, nodes, t);
        return err, nodes;
      }
      var next := NextTopicLevel(topic);
      if next.Malformed? {
        return true, nodes;
      }
      var n := Find(next.level, nodes, t);
      if n == null {
        return true, nodes;
      }
      err, after := n.SRemove(next.rem.GetOr(""), share, node, nodes, t);
      if err {
        return;
      }
      assert |path| < |n.path|;
      after := PruneChild(next.level, after, NodeWeights.SRemove(t, n.path, next.rem.GetOr(""), share, node).store);
    }

    method RemoveHere(share: string, node: string, ghost nodes: Index, ghost t: Store) returns (err: bool)
      requires At(nodes, t) && Sound(t)
      modifies this
      ensures err <==> NodeWeights.SRemove(t, path, "", share, node).Refused?
      ensures err ==> unchanged(this) && At(nodes, t)
      ensures !err ==> At(nodes, NodeWeights.SRemove(t, path, "", share, node).store)
    {
      Entries(nodes, t, share);
      hide Linked, Holds, Sound, Good, Lowered;
      if share == "" {
        tmn := map[];
        Regrouped(nodes, path, t, map[]);
        return false;
      }
      if share in tmn {
        var v := tmn[share];
        var i := Position(v, node);
        if i < |v| {
          var lower := LowerAt(v, i);
          tmn := tmn[share := lower];
          Regrouped(nodes, path, t, t[path][share := lower]);
          return false;
        }
      }
      return true;
    }

    lemma Entries(nodes: Index, t: Store, share: string)
      requires At(nodes, t) && Sound(t)
      ensures tmn == t[path] && Good(GroupAt(t, path, share))
      ensures GroupAt(t, path, share) == if share in tmn then tmn[share] else []
    {
    }

    /** Takes one from a node's weight and the node out when none is left. */
    method LowerAt(v: seq<NodeWeight>, i: nat) returns (r: seq<NodeWeight>)
      requires i < |v| && Good(v)
      ensures r == Lowered(v, i)
    {
      r := v[i := NodeWeight(v[i].node, v[i].weight - 1)];
      if r[i].weight == 0 {
        r := r[..i] + r[i + 1..];
      }
    }

    /** Drops a child that has neither groups nor children. */
    method PruneChild(level: string, ghost nodes: Index, ghost t: Store) returns (ghost after: Index)
      requires At(nodes, t) && Child(path, level) in t && Sound(t)
      modifies this
      ensures At(after, Prune(t, Child(path, level)))
      ensures forall p <- after :: p in nodes && after[p] == nodes[p]
    {
      hide Linked, Holds, Sound;
      var n := ChildBare(level, nodes, t);
      after := nodes;
      if |n.tmn| == 0 && |n.rsnodes| == 0 {
        rsnodes := rsnodes - {level};
        after := nodes - {Child(path, level)};
        Unlinked(nodes, path, t, level);
      }
    }

    method ChildBare(level: string, ghost nodes: Index, ghost t: Store) returns (n: RSNode)
      requires At(nodes, t) && Child(path, level) in t
      ensures level in rsnodes && n == rsnodes[level]
      ensures |n.tmn| == 0 && |n.rsnodes| == 0 <==> Bare(t, Child(path, level))
    {
      ghost var c := Child(path, level);
      n := rsnodes[level];
      assert nodes[c] == n;
      forall k ensures c + [k] in t <==> k in n.rsnodes { assert Child(c, k) == c + [k]; }
    }

    lemma Groups(nodes: Index, t: Store)
      requires At(nodes, t) && Sound(t)
      ensures tmn == t[path] && forall sn <- tmn :: Good(tmn[sn])
    {
    }

    /** Draws one node of every group here that has any. */
    method MatchHere(chosen: Chosen, ghost nodes: Index, ghost t: Store) returns (ghost picks: seq<Choice>)
      requires At(nodes, t) && Sound(t)
      modifies chosen
      ensures chosen.Grown(old(chosen.shares), old(chosen.nodes), picks)
      ensures ChoicesOf(picks, t, iset{path})
    {
      Groups(nodes, t);
      picks := [];
      NoneYet(chosen.shares, chosen.nodes, t, path);
      hide Linked, Holds, Sound, OneEach, IsOne, Extends;
      var todo := tmn.Keys;
      while todo != {}
        invariant todo <= tmn.Keys == t[path].Keys && tmn == t[path]
        invariant chosen.Grown(old(chosen.shares), old(chosen.nodes), picks)
        invariant OneEach(picks, t, path, t[path].Keys - todo)
        decreases todo
      {
        var sn :| sn in todo;
        ghost var shares1, nodes1, one := chosen.shares, chosen.nodes, [];
        assert GroupAt(t, path, sn) == tmn[sn];
        ghost var drawn, draw, k := DrawFrom(sn, tmn[sn], chosen, path);
        one := drawn;
        ExtendsTwice(old(chosen.shares), old(chosen.nodes), shares1, nodes1, chosen.shares, chosen.nodes, picks, one);
        OneMore(picks, one, t, path, t[path].Keys - todo, sn);
        assert t[path].Keys - (todo - {sn}) == t[path].Keys - todo + {sn};
        picks := picks + one;
        todo := todo - {sn};
      }
      assert t[path].Keys - todo == t[path].Keys;
      GroupsHere(picks, t, path);
    }

    /** Draws a number from one to the group's weight and counts it down: the node at which
        it is used up is the choice. */
    method DrawFrom(sn: string, nd: seq<NodeWeight>, chosen: Chosen, ghost at: Path)
      returns (ghost one: seq<Choice>, ghost draw: int, ghost k: nat)
      requires Good(nd)
      modifies chosen
      ensures chosen.Grown(old(chosen.shares), old(chosen.nodes), one)
      ensures IsOne(one, at, sn, nd)
      ensures nd != [] ==> 1 <= draw <= Total(nd)
      ensures nd != [] ==> k < |nd| && one == [Choice(at, sn, nd[k].node)]
      ensures nd != [] ==> Total(nd[..k]) < draw <= Total(nd[..k]) + nd[k].weight
    {
      var w := SumOf(nd);
      var rn: int :| 1 <= rn <= if w == 0 then 1 else w;
      draw, k := rn, 0;
      SomeWeight(nd);
      PickChooses(nd, draw);
      one := [];
      var i := 0;
      while i < |nd|
        invariant i <= |nd| && unchanged(chosen) && Pick(nd, draw) == Pick(nd[i..], rn)
        invariant rn == draw - Total(nd[..i]) && rn > 0
      {
        TotalTo(nd, i);
        k := i;
        rn := rn - nd[i].weight;
        if rn > 0 {
          i := i + 1;
          continue;
        }
        chosen.shares := chosen.shares + [sn];
        chosen.nodes := chosen.nodes + [nd[i].node];
        one := [Choice(at, sn, nd[i].node)];
        assert draw in Range(0, Total(nd));
        return;
      }
    }

    method SumOf(nd: seq<NodeWeight>) returns (w: nat)
      ensures w == Total(nd)
    {
      w := 0;
      for i := 0 to |nd|
        invariant w + Total(nd[i..]) == Total(nd)
      {
        assert nd[i..][1..] == nd[i + 1..];
        w := w + nd[i].weight;
      }
    }

    /** matchNode: the groups here, then those of the '#' below. */
    method MatchNode(chosen: Chosen, ghost nodes: Index, ghost t: Store) returns (ghost picks: seq<Choice>)
      requires At(nodes, t) && Sound(t) && WellCut(t)
      modifies chosen
      decreases if path != [] && path[|path| - 1] == MWC then 0 else 1
      ensures chosen.Grown(old(chosen.shares), old(chosen.nodes), picks)
      ensures ChoicesOf(picks, t, iset{path} + iset{Child(path, MWC)})
    {
      hide Linked, Holds, Sound, ChoicesOf;
      picks := MatchHere(chosen, nodes, t);
      var v := Find(MWC, nodes, t);
      if v == null {
        NoGroups(picks, t, iset{path}, Child(path, MWC));
      } else {
        NoHashBelowHash(t, path);
        ghost var shares1, nodes1 := chosen.shares, chosen.nodes;
        ghost var below := v.MatchNode(chosen, nodes, t);
        SomeGroups(below, t, iset{v.path}, Child(v.path, MWC));
        JoinChoices(picks, below, t, iset{path}, iset{v.path});
        ExtendsTwice(old(chosen.shares), old(chosen.nodes), shares1, nodes1, chosen.shares, chosen.nodes, picks, below);
        picks := picks + below;
      }
    }

    method Levels(ghost nodes: Index, ghost t: Store) returns (levels: set<string>)
      requires At(nodes, t)
      ensures forall k :: k in levels <==> Child(path, k) in t
    {
      levels := rsnodes.Keys;
      assert forall k :: Child(path, k) in nodes <==> k in rsnodes;
    }

    method SMatch(topic: string, chosen: Chosen, ghost nodes: Index, ghost t: Store)
      returns (err: bool, ghost picks: seq<Choice>)
      requires At(nodes, t) && Sound(t) && WellCut(t)
      modifies chosen
      decreases |topic|, 1
      ensures chosen.Grown(old(chosen.shares), old(chosen.nodes), picks)
      ensures err ==> Walk(topic) == None
      ensures !err ==> ChoicesOf(picks, t, NodePaths(path, topic))
    {
      hide Linked, Holds, Sound, ChoicesOf, Visited, Walk, WellCut, NodePaths;
      if |topic| == 0 {
        picks := MatchNode(chosen, nodes, t);
        PathsAtEnd(path);
        return false, picks;
      }
      NoneChosen(chosen.shares, chosen.nodes, t, path, topic);
      var next := NextTopicLevel(topic);
      if next.Malformed? {
        assert Walk(topic) == None by { FailedWalk(topic); }
        return true, [];
      }
      err, picks := false, [];
      var todo := Levels(nodes, t);
      ghost var done: set<string> := {};
      while todo != {}
        invariant At(nodes, t)
        invariant forall k :: k in todo || k in done <==> Child(path, k) in t
        invariant todo !! done
        invariant chosen.Grown(old(chosen.shares), old(chosen.nodes), picks)
        invariant ChoicesOf(picks, t, Visited(path, topic, done))
        decreases todo
      {
        var k :| k in todo;
        ghost var more;
        ghost var shares1, nodes1 := chosen.shares, chosen.nodes;
        err, more := MatchLevel(k, topic, next, chosen, nodes, t);
        ExtendsTwice(old(chosen.shares), old(chosen.nodes), shares1, nodes1, chosen.shares, chosen.nodes, picks, more);
        if err {
          return true, picks + more;
        }
        JoinLevel(path, topic, t, done, k, picks, more);
        picks := picks + more;
        todo, done := todo - {k}, done + {k};
      }
      AllVisited(path, topic, t, done, picks);
    }

    /** One turn of the loop over the children. */
    method MatchLevel(k: string, topic: string, next: Next, chosen: Chosen, ghost nodes: Index, ghost t: Store)
      returns (err: bool, ghost picks: seq<Choice>)
      requires At(nodes, t) && Sound(t) && WellCut(t) && Child(path, k) in t
      requires topic != "" && next == NextLevel(topic) && next.Level?
      modifies chosen
      decreases |topic|, 0
      ensures chosen.Grown(old(chosen.shares), old(chosen.nodes), picks)
      ensures err ==> Walk(topic) == None
      ensures !err ==> ChoicesOf(picks, t, Visited(path, topic, {k}))
    {
      hide Linked, Holds, Sound, ChoicesOf, Visited, Walk, WellCut, NodePaths;
      LevelPaths(path, topic, k);
      NoneChosen(chosen.shares, chosen.nodes, t, path, topic);
      err, picks := false, [];
      var n := Find(k, nodes, t);
      if k == MWC {
        picks := n.MatchNode(chosen, nodes, t);
        WellCutHash(t, path);
        SomeGroups(picks, t, iset{n.path}, Child(n.path, MWC));
      } else if k == SWC || k == next.level {
        err, picks := n.SMatch(next.rem.GetOr(""), chosen, nodes, t);
      }
    }
  }

  /** The nodes lie where walks lead. */
  ghost predicate WellCut(t: Store) {
    forall p <- t :: StoredPath(p)
  }

  lemma NoHashBelowHash(t: Store, path: Path)
    requires WellCut(t) && Child(path, MWC) in t
    ensures path == [] || path[|path| - 1] != MWC
    ensures Child(Child(path, MWC), MWC) !in t
  {
    var c := Child(path, MWC);
    assert path != [] ==> c[|path| - 1] == path[|path| - 1];
    assert Child(c, MWC)[|path|] == MWC;
  }

  lemma WellCutHash(t: Store, path: Path)
    requires WellCut(t) && Child(path, MWC) in t
    ensures Child(Child(path, MWC), MWC) !in t
  {
    NoHashBelowHash(t, path);
  }

  lemma {:induction false} InsertWellCut(t: Store, at: Path, topic: string, share: string, node: string, num: nat)
    requires at in t && WellCut(t)
    requires topic == "" || at == [] || at[|at| - 1] != MWC
    ensures WellCut(NodeWeights.SInsert(t, at, topic, share, node, num))
    decreases |topic|
  {
    if topic != "" && NextLevel(topic).Level? {
      var level, below := NextLevel(topic).level, NextLevel(topic).rem.GetOr("");
      var next := Child(at, level);
      assert level != "" && (below != "" ==> level != MWC);
      assert StoredPath(at);
      assert forall i :: 0 <= i < |at| ==> next[i] == at[i];
      assert at + [level] == next && next[|next| - 1] == level;
      InsertWellCut(if next in t then t else t[next := map[]], next, below, share, node, num);
    }
  }

  lemma RemoveWellCut(t: Store, topic: string, share: string, node: string)
    requires Sound(t) && WellCut(t)
    ensures var r := NodeWeights.SRemove(t, [], topic, share, node); r.Removed? ==> WellCut(r.store)
  {
  }

  lemma RemoveFromRoot(t: Store, topic: string, share: string, node: string)
    requires Sound(t)
    ensures share != "" ==>
      (NodeWeights.SRemove(t, [], topic, share, node).Refused? <==> !Takes(t, Walk(topic), share, node))
  {
    if share != "" {
      RemoveSucceeds(t, [], topic, share, node);
      assert WalkFrom([], topic) == Walk(topic) by { assert forall p: Path :: [] + p == p; }
    }
  }

  /** A node drawn for a group; `path` is the filter the group is stored under. */
  datatype Choice = Choice(path: Path, share: string, node: string)

  /** The two slices that matching appends to, shared with its caller. */
  class Chosen {
    var shares: seq<string>
    var nodes: seq<string>

    constructor ()
      ensures shares == [] && nodes == []
    {
      shares, nodes := [], [];
    }

    ghost predicate Grown(shares0: seq<string>, nodes0: seq<string>, picks: seq<Choice>)
      reads this
    {
      Extends(shares0, nodes0, shares, nodes, picks)
    }
  }

  /** Two slices grown by some choices. */
  ghost predicate Extends(shares0: seq<string>, nodes0: seq<string>, shares1: seq<string>, nodes1: seq<string>,
                          picks: seq<Choice>) {
    && |shares1| == |shares0| + |picks| && |nodes1| == |nodes0| + |picks|
    && shares0 <= shares1 && nodes0 <= nodes1
    && forall i :: 0 <= i < |picks| ==>
      picks[i].share == shares1[|shares0| + i] && picks[i].node == nodes1[|nodes0| + i]
  }

  lemma ExtendsTwice(shares0: seq<string>, nodes0: seq<string>, shares1: seq<string>, nodes1: seq<string>,
                     shares2: seq<string>, nodes2: seq<string>, a: seq<Choice>, b: seq<Choice>)
    requires Extends(shares0, nodes0, shares1, nodes1, a) && Extends(shares1, nodes1, shares2, nodes2, b)
    ensures Extends(shares0, nodes0, shares2, nodes2, a + b)
  {
  }

  /** One choice for each of these groups that is not empty, and no other. */
  ghost predicate OneEach(picks: seq<Choice>, t: Store, path: Path, shares: set<string>) {
    && (forall i, j :: 0 <= i < j < |picks| ==> picks[i].share != picks[j].share)
    && (forall i :: 0 <= i < |picks| ==>
          picks[i].path == path && picks[i].share in shares && Drawn(GroupAt(t, path, picks[i].share), picks[i].node))
    && (forall s <- shares :: GroupAt(t, path, s) != [] ==> HasShare(picks, s))
  }

  ghost predicate HasShare(picks: seq<Choice>, share: string) {
    exists i :: 0 <= i < |picks| && picks[i].share == share
  }

  /** Some draw chooses the node. */
  ghost predicate Drawn(nd: seq<NodeWeight>, node: string) {
    exists rn :: rn in Range(0, Total(nd)) && Pick(nd, rn) == Some(node)
  }

  /** The one choice of a group, none for an empty group. */
  ghost predicate IsOne(one: seq<Choice>, at: Path, sn: string, nd: seq<NodeWeight>) {
    if nd == [] then one == []
    else |one| == 1 && one[0].path == at && one[0].share == sn && Drawn(nd, one[0].node)
  }

  lemma SomeWeight(nd: seq<NodeWeight>)
    requires Good(nd)
    ensures nd != [] <==> Total(nd) > 0
  {
  }

  lemma NoneYet(shares: seq<string>, nodes: seq<string>, t: Store, path: Path)
    requires path in t
    ensures Extends(shares, nodes, shares, nodes, [])
    ensures OneEach([], t, path, t[path].Keys - t[path].Keys)
  {
  }

  lemma OneMore(picks: seq<Choice>, one: seq<Choice>, t: Store, path: Path, shares: set<string>, sn: string)
    requires OneEach(picks, t, path, shares) && sn !in shares && IsOne(one, path, sn, GroupAt(t, path, sn))
    ensures OneEach(picks + one, t, path, shares + {sn})
  {
    hide Drawn, GroupAt;
    var all := picks + one;
    assert forall i :: 0 <= i < |picks| ==> all[i] == picks[i] && picks[i].share != sn;
    assert one != [] ==> all[|picks|] == one[0] && |all| == |picks| + 1;
    forall s <- shares + {sn} | GroupAt(t, path, s) != [] ensures HasShare(all, s) {
      if s != sn {
        assert HasShare(picks, s);
        var i :| 0 <= i < |picks| && picks[i].share == s;
        assert all[i].share == s;
      }
    }
  }

  // ---------- reports ----------

  ghost predicate Chose(picks: seq<Choice>, path: Path, share: string) {
    exists i :: 0 <= i < |picks| && picks[i].path == path && picks[i].share == share
  }

  /** One node, drawn by its weight, for each non-empty group under these filters, and for no
      other group. */
  ghost predicate ChoicesOf(picks: seq<Choice>, t: Store, paths: iset<Path>) {
    && (forall i :: 0 <= i < |picks| ==>
          picks[i].path in paths && Drawn(GroupAt(t, picks[i].path, picks[i].share), picks[i].node))
    && (forall i, j :: 0 <= i < j < |picks| ==> picks[i].path != picks[j].path || picks[i].share != picks[j].share)
    && (forall path, s :: path in paths && GroupAt(t, path, s) != [] ==> Chose(picks, path, s))
  }

  lemma GroupsHere(picks: seq<Choice>, t: Store, path: Path)
    requires path in t && OneEach(picks, t, path, t[path].Keys)
    ensures ChoicesOf(picks, t, iset{path})
  {
    forall s | GroupAt(t, path, s) != [] ensures Chose(picks, path, s) {
      assert s in t[path].Keys;
      assert HasShare(picks, s);
    }
  }

  /** Filters without groups make no difference. */
  lemma NoGroups(picks: seq<Choice>, t: Store, paths: iset<Path>, other: Path)
    requires ChoicesOf(picks, t, paths) && other !in t
    ensures ChoicesOf(picks, t, paths + iset{other})
  {
  }

  lemma SomeGroups(picks: seq<Choice>, t: Store, paths: iset<Path>, other: Path)
    requires ChoicesOf(picks, t, paths + iset{other}) && other !in t
    ensures ChoicesOf(picks, t, paths)
  {
    forall nd, node | Drawn(nd, node) ensures nd != [] {
      DrawnFromSome(nd, node);
    }
  }

  lemma DrawnFromSome(nd: seq<NodeWeight>, node: string)
    requires Drawn(nd, node)
    ensures nd != []
  {
  }

  lemma JoinChoices(a: seq<Choice>, b: seq<Choice>, t: Store, pathsA: iset<Path>, pathsB: iset<Path>)
    requires ChoicesOf(a, t, pathsA) && ChoicesOf(b, t, pathsB) && pathsA !! pathsB
    ensures ChoicesOf(a + b, t, pathsA + pathsB)
  {
    hide Drawn, GroupAt;
    forall path, s | path in pathsA + pathsB && GroupAt(t, path, s) != [] ensures Chose(a + b, path, s) {
      if path in pathsA {
        assert Chose(a, path, s);
        var i :| 0 <= i < |a| && a[i].path == path && a[i].share == s;
        assert (a + b)[i] == a[i];
      } else {
        assert Chose(b, path, s);
        var i :| 0 <= i < |b| && b[i].path == path && b[i].share == s;
        assert (a + b)[|a| + i] == b[i];
      }
    }
  }

  predicate NodeBelow(at: Path, path: Path, topic: string) {
    at <= path && NodeMatches(path[|at|..], topic)
  }

  /** The filters below a node that are reported for a topic. */
  ghost function NodePaths(at: Path, topic: string): iset<Path> {
    iset path | NodeBelow(at, path, topic)
  }

  /** Those of them that go on with one of these levels. */
  ghost function Visited(at: Path, topic: string, levels: set<string>): iset<Path> {
    iset path | NodeBelow(at, path, topic) && |path| > |at| && path[|at|] in levels
  }

  lemma NoneChosen(shares: seq<string>, nodes: seq<string>, t: Store, at: Path, topic: string)
    ensures Extends(shares, nodes, shares, nodes, [])
    ensures ChoicesOf([], t, Visited(at, topic, {})) && ChoicesOf([], t, iset{})
  {
  }

  lemma FailedWalk(topic: string)
    requires topic != "" && NextLevel(topic).Malformed?
    ensures Walk(topic) == None
  {
  }

  lemma PathsAtEnd(at: Path)
    ensures NodePaths(at, "") == iset{at} + iset{Child(at, MWC)}
  {
    forall path ensures NodeBelow(at, path, "") <==> path == at || path == Child(at, MWC) {
      if at <= path {
        assert path == at + path[|at|..];
        assert at + [] == at;
      }
    }
  }

  lemma JoinLevel(at: Path, topic: string, t: Store, done: set<string>, k: string, a: seq<Choice>, b: seq<Choice>)
    requires k !in done
    requires ChoicesOf(a, t, Visited(at, topic, done)) && ChoicesOf(b, t, Visited(at, topic, {k}))
    ensures ChoicesOf(a + b, t, Visited(at, topic, done + {k}))
  {
    JoinChoices(a, b, t, Visited(at, topic, done), Visited(at, topic, {k}));
    assert Visited(at, topic, done) + Visited(at, topic, {k}) == Visited(at, topic, done + {k});
  }

  lemma AllVisited(at: Path, topic: string, t: Store, done: set<string>, picks: seq<Choice>)
    requires Sound(t) && topic != ""
    requires forall k :: k in done <==> Child(at, k) in t
    requires ChoicesOf(picks, t, Visited(at, topic, done))
    ensures ChoicesOf(picks, t, NodePaths(at, topic))
  {
    forall path | path in NodePaths(at, topic) ensures path in Visited(at, topic, done) || path !in t {
      assert path == at + path[|at|..];
      assert path[|at|..] != [];
      var k := path[|at|];
      if k !in done {
        NothingBelow(t, Child(at, k), path[|at| + 1..]);
        assert path == Child(at, k) + path[|at| + 1..];
      }
    }
    hide Drawn;
  }

  /** The filters reported through one child, by the branch the loop takes. */
  lemma LevelPaths(at: Path, topic: string, k: string)
    requires topic != "" && NextLevel(topic).Level?
    ensures var next := NextLevel(topic);
      Visited(at, topic, {k}) ==
        if k == MWC then iset{Child(at, k)}
        else if k == SWC || k == next.level then NodePaths(Child(at, k), next.rem.GetOr(""))
        else iset{}
    ensures Walk(NextLevel(topic).rem.GetOr("")) == None ==> Walk(topic) == None
  {
    var c := Child(at, k);
    forall path ensures path in Visited(at, topic, {k}) <==> c <= path && NodeMatches([k] + path[|c|..], topic) {
      if at <= path && |path| > |at| && path[|at|] == k {
        assert path[|at|..] == [k] + path[|c|..];
        assert c <= path;
      }
      if c <= path {
        assert at == c[..|at|] <= path;
        assert path[|at|] == c[|at|] == k;
        assert path[|at|..] == [k] + path[|c|..];
      }
    }
    forall path | c <= path
      ensures path == c + path[|c|..]
      ensures ([k] + path[|c|..])[1..] == path[|c|..]
    {
    }
    assert c + [] == c && c[|c|..] == [];
  }

  /** What is chosen for a topic: one node of each non-empty group whose filter, as it was
      walked, matches the topic's levels. */
  lemma ChoicesAreStandard(picks: seq<Choice>, t: Store, topic: string)
    requires WellCut(t) && Walk(topic).Some? && ChoicesOf(picks, t, NodePaths([], topic))
    ensures forall path, s ::
      Chose(picks, path, s) <==> GroupAt(t, path, s) != [] && Matches(path, Walk(topic).value)
  {
    forall nd, node | Drawn(nd, node) ensures nd != [] {
      DrawnFromSome(nd, node);
    }
    forall path | path in t ensures path in NodePaths([], topic) <==> Matches(path, Walk(topic).value) {
      assert path[0..] == path;
      NodeDecidesStandard(path, topic);
    }
    hide Drawn, NodePaths, Walk, Matches;
    forall path, s ensures Chose(picks, path, s) <==> GroupAt(t, path, s) != [] && Matches(path, Walk(topic).value) {
      assert GroupAt(t, path, s) != [] ==> path in t;
    }
  }

  lemma AddKeeps(t: Store, topic: string, share: string, node: string, num: nat)
    requires [] in t && Sound(t) && WellCut(t) && num > 0
    ensures var t' := NodeWeights.SInsert(t, [], topic, share, node, num);
      t' == Apply(t, Add(topic, share, node, num)) && Sound(t') && WellCut(t')
  {
    InsertSound(t, [], topic, share, node, num);
    InsertWellCut(t, [], topic, share, node, num);
    hide Sound, WellCut, NodeWeights.SInsert;
  }

  lemma TakeKeeps(t: Store, topic: string, share: string, node: string)
    requires [] in t && Sound(t) && WellCut(t)
    ensures var r, after := NodeWeights.SRemove(t, [], topic, share, node), Apply(t, Take(topic, share, node));
      && after == (if r.Removed? then r.store else t) && Sound(after) && WellCut(after)
      && (share != "" ==> (r.Refused? <==> !Takes(t, Walk(topic), share, node)))
  {
    RemoveWellCut(t, topic, share, node);
    RemoveFromRoot(t, topic, share, node);
    hide Sound, WellCut, NodeWeights.SRemove, Takes, Walk;
  }

  /** memTopicMapNode. */
  class MemTopicMapNode {
    var sroot: RSNode
    ghost var nodes: Index
    ghost var t: Store

    ghost predicate Valid()
      reads this, nodes.Values
    {
      sroot.At(nodes, t) && sroot.path == [] && Sound(t) && WellCut(t)
    }

    constructor ()
      ensures Valid() && fresh(nodes.Values) && t == NodeWeights.EMPTY
    {
      sroot := new RSNode([]);
      new;
      nodes, t := map[[] := sroot], NodeWeights.EMPTY;
    }

    method Subscribe(topic: string, share: string, node: string, num: nat) returns (err: bool)
      requires Valid() && num > 0
      modifies this, nodes.Values
      ensures Valid() && t == Apply(old(t), Add(topic, share, node, num))
      ensures forall p <- nodes :: fresh(nodes[p]) || (p in old(nodes) && nodes[p] == old(nodes)[p])
      ensures err <==> Walk(topic) == None
    {
      AddKeeps(t, topic, share, node, num);
      hide RSNode.At, Sound, WellCut, NodeWeights.SInsert, Apply, Walk, OpOk;
      ghost var left;
      ghost var after := Apply(t, Add(topic, share, node, num));
      err, left := sroot.SInsert(topic, share, node, num, nodes, t);
      t := after;
      assert sroot.At(left, after);
      nodes := left;
      assert sroot.At(left, after);
    }

    /** Fails exactly when there is nothing to take: with a share name, when the counter is
        zero. */
    method Unsubscribe(topic: string, share: string, node: string) returns (err: bool)
      requires Valid()
      modifies this, nodes.Values
      ensures Valid() && t == Apply(old(t), Take(topic, share, node))
      ensures forall p <- nodes :: p in old(nodes) && nodes[p] == old(nodes)[p]
      ensures share != "" ==> (err <==> !Takes(old(t), Walk(topic), share, node))
    {
      TakeKeeps(t, topic, share, node);
      hide RSNode.At, Sound, WellCut, NodeWeights.SRemove, Apply, Walk, Takes, OpOk;
      ghost var left;
      ghost var after := Apply(t, Take(topic, share, node));
      err, left := sroot.SRemove(topic, share, node, nodes, t);
      t := after;
      assert sroot.At(left, after);
      nodes := left;
      assert sroot.At(left, after);
    }

    /** Subscribers: a node for every group that shares the topic. */
    method Subscribers(topic: string, chosen: Chosen) returns (err: bool, ghost picks: seq<Choice>)
      requires Valid()
      modifies chosen
      ensures Valid()
      ensures chosen.Grown(old(chosen.shares), old(chosen.nodes), picks)
      ensures err ==> Walk(topic) == None
      ensures Walk(topic).Some? ==>
        && ChoicesOf(picks, t, NodePaths([], topic))
        && forall path, s :: Chose(picks, path, s) <==> GroupAt(t, path, s) != [] && Matches(path, Walk(topic).value)
    {
      hide Sound, WellCut, ChoicesOf, Walk, Matches, NodePaths, Linked, Holds;
      err, picks := sroot.SMatch(topic, chosen, nodes, t);
      if Walk(topic).Some? {
        ChoicesAreStandard(picks, t, topic);
      }
    }
  }
}
