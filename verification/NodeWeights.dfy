/**
  The cluster's node map as a value: for each level path and share name, the nodes that
  subscribe and how often. Kept against a flat counter per (path, share name, node).
 */
module NodeWeights {
  import opened Options
  import opened Paths
  import opened TopicLevels

  datatype NodeWeight = NodeWeight(node: string, weight: nat)

  /** The tmn field of a trie node: share name to nodes. */
  type Groups = map<string, seq<NodeWeight>>

  type Store = map<Path, Groups>

  const EMPTY: Store := map[[] := map[]]

  // ---------- one group ----------

  function IndexOf(nd: seq<NodeWeight>, node: string): (i: nat)
    ensures i <= |nd|
    ensures i < |nd| ==> nd[i].node == node
    ensures forall j :: 0 <= j < i ==> nd[j].node != node
  {
    if nd == [] || nd[0].node == node then 0 else 1 + IndexOf(nd[1..], node)
  }

  function WeightIn(nd: seq<NodeWeight>, node: string): nat {
    var i := IndexOf(nd, node);
    if i < |nd| then nd[i].weight else 0
  }

  /** No node twice, none with weight zero. */
  predicate Good(nd: seq<NodeWeight>) {
    && (forall i, j :: 0 <= i < j < |nd| ==> nd[i].node != nd[j].node)
    && (forall i :: 0 <= i < |nd| ==> nd[i].weight > 0)
  }

  function Raised(nd: seq<NodeWeight>, node: string, num: nat): seq<NodeWeight> {
    var i := IndexOf(nd, node);
    if i < |nd| then nd[i := NodeWeight(node, nd[i].weight + num)] else nd + [NodeWeight(node, num)]
  }

  function Lowered(nd: seq<NodeWeight>, i: nat): seq<NodeWeight>
    requires i < |nd| && nd[i].weight > 0
  {
    if nd[i].weight == 1 then nd[..i] + nd[i + 1..] else nd[i := NodeWeight(nd[i].node, nd[i].weight - 1)]
  }

  lemma WeightUnique(nd: seq<NodeWeight>, i: nat)
    requires Good(nd) && i < |nd|
    ensures IndexOf(nd, nd[i].node) == i && WeightIn(nd, nd[i].node) == nd[i].weight
  {
  }

  lemma RaisedWeights(nd: seq<NodeWeight>, node: string, num: nat)
    requires Good(nd) && num > 0
    ensures Good(Raised(nd, node, num))
    ensures forall v :: WeightIn(Raised(nd, node, num), v) == WeightIn(nd, v) + (if v == node then num else 0)
  {
    var next := Raised(nd, node, num);
    assert Good(next);
    forall v ensures WeightIn(next, v) == WeightIn(nd, v) + if v == node then num else 0 {
      var j := IndexOf(nd, v);
      if j < |next| && next[j].node == v { WeightUnique(next, j); }
    }
  }

  lemma LoweredWeights(nd: seq<NodeWeight>, node: string)
    requires Good(nd) && IndexOf(nd, node) < |nd|
    ensures Good(Lowered(nd, IndexOf(nd, node)))
    ensures forall v :: WeightIn(Lowered(nd, IndexOf(nd, node)), v) == WeightIn(nd, v) - (if v == node then 1 else 0)
  {
    var i := IndexOf(nd, node);
    forall v ensures WeightIn(Lowered(nd, i), v) == WeightIn(nd, v) - if v == node then 1 else 0 {
      if nd[i].weight == 1 { LastTaken(nd, i, v); } else { OneTaken(nd, i, v); }
    }
  }

  lemma LastTaken(nd: seq<NodeWeight>, i: nat, v: string)
    requires Good(nd) && i < |nd|
    ensures Good(nd[..i] + nd[i + 1..])
    ensures WeightIn(nd[..i] + nd[i + 1..], v) == if v == nd[i].node then 0 else WeightIn(nd, v)
  {
    hide IndexOf;
    var next := nd[..i] + nd[i + 1..];
    assert forall m :: 0 <= m < |next| ==> next[m] == nd[if m < i then m else m + 1];
    var j := IndexOf(nd, v);
    if v != nd[i].node && j < |nd| {
      WeightUnique(next, if j < i then j else j - 1);
    }
  }

  lemma OneTaken(nd: seq<NodeWeight>, i: nat, v: string)
    requires Good(nd) && i < |nd| && nd[i].weight > 1
    ensures var next := nd[i := NodeWeight(nd[i].node, nd[i].weight - 1)];
      Good(next) && WeightIn(next, v) == WeightIn(nd, v) - if v == nd[i].node then 1 else 0
  {
    var next := nd[i := NodeWeight(nd[i].node, nd[i].weight - 1)];
    WeightUnique(nd, i);
    var j := IndexOf(nd, v);
    if j < |nd| {
      WeightUnique(next, j);
    }
  }

  // ---------- the weighted pick ----------

  function Total(nd: seq<NodeWeight>): nat {
    if nd == [] then 0 else nd[0].weight + Total(nd[1..])
  }

  lemma {:induction false} TotalTo(nd: seq<NodeWeight>, i: nat)
    requires i < |nd|
    ensures Total(nd[..i + 1]) == Total(nd[..i]) + nd[i].weight
  {
    if i > 0 {
      TotalTo(nd[1..], i - 1);
      assert nd[..i + 1][1..] == nd[1..][..i] && nd[..i][1..] == nd[1..][..i - 1];
    }
  }

  /** The countdown of matchNode: the first node at which the draw is used up. */
  function Pick(nd: seq<NodeWeight>, rn: int): Option<string> {
    if nd == [] then None
    else if rn - nd[0].weight > 0 then Pick(nd[1..], rn - nd[0].weight)
    else Some(nd[0].node)
  }

  function Range(low: int, n: nat): (s: set<int>)
    ensures forall rn :: rn in s <==> low < rn <= low + n
    ensures |s| == n
  {
    if n == 0 then {} else Range(low, n - 1) + {low + n}
  }

  /** The draws, counted from above `low`, that choose a node. */
  function Draws(nd: seq<NodeWeight>, node: string, low: int): set<int> {
    set rn | rn in Range(low, Total(nd)) && Pick(nd, rn - low) == Some(node)
  }

  /** A draw chooses a node of the group; only an empty group chooses none. */
  lemma {:induction false} PickChooses(nd: seq<NodeWeight>, rn: int)
    requires rn <= Total(nd) || (nd == [] && rn == 1)
    ensures nd == [] <==> Pick(nd, rn) == None
    ensures nd != [] ==> exists i :: 0 <= i < |nd| && Pick(nd, rn) == Some(nd[i].node)
  {
    if nd != [] {
      var rest := nd[1..];
      if rn - nd[0].weight > 0 {
        assert rest != [];
        PickChooses(rest, rn - nd[0].weight);
        var i :| 0 <= i < |rest| && Pick(rest, rn - nd[0].weight) == Some(rest[i].node);
        assert nd[i + 1] == rest[i];
      } else {
        assert Pick(nd, rn) == Some(nd[0].node);
      }
    }
  }

  /** Of the draws from 1 to the total, as many choose a node as it has weight. */
  lemma DrawsAreWeight(nd: seq<NodeWeight>, node: string)
    requires Good(nd)
    ensures |set rn | rn in Range(0, Total(nd)) && Pick(nd, rn) == Some(node)| == WeightIn(nd, node)
  {
    DrawsFrom(nd, node, 0);
    assert Draws(nd, node, 0) == set rn | rn in Range(0, Total(nd)) && Pick(nd, rn) == Some(node);
  }

  lemma {:induction false} DrawsFrom(nd: seq<NodeWeight>, node: string, low: int)
    requires Good(nd)
    ensures |Draws(nd, node, low)| == WeightIn(nd, node)
    decreases nd
  {
    hide Range, WeightIn;
    if nd == [] {
      assert Draws(nd, node, low) == {} && WeightIn(nd, node) == 0 by { EmptyGroup(node, low); }
    } else {
      hide Draws, Pick, Total;
      var w := nd[0].weight;
      DrawsFrom(nd[1..], node, low + w);
      DrawsStep(nd, node, low);
      WeightStep(nd, node);
      if nd[0].node == node {
        assert Draws(nd[1..], node, low + w) == {};
        assert Draws(nd, node, low) == Range(low, w);
      } else {
        assert Draws(nd, node, low) == Draws(nd[1..], node, low + w);
      }
    }
  }

  lemma EmptyGroup(node: string, low: int)
    ensures Draws([], node, low) == {} && WeightIn([], node) == 0
  {
  }

  lemma WeightStep(nd: seq<NodeWeight>, node: string)
    requires Good(nd) && nd != []
    ensures nd[0].node == node ==> WeightIn(nd, node) == nd[0].weight && WeightIn(nd[1..], node) == 0
    ensures nd[0].node != node ==> WeightIn(nd, node) == WeightIn(nd[1..], node)
  {
  }

  /** The first node takes the first draws; the rest of the list is drawn from above them. */
  lemma DrawsStep(nd: seq<NodeWeight>, node: string, low: int)
    requires nd != []
    ensures Draws(nd, node, low) ==
      (if nd[0].node == node then Range(low, nd[0].weight) else {}) + Draws(nd[1..], node, low + nd[0].weight)
  {
  }

  // ---------- the trie ----------

  function GroupAt(t: Store, p: Path, share: string): seq<NodeWeight> {
    if p in t && share in t[p] then t[p][share] else []
  }

  function WeightAt(t: Store, p: Path, share: string, node: string): nat {
    WeightIn(GroupAt(t, p, share), node)
  }

  /** sinsert at the node under `at`. */
  function SInsert(t: Store, at: Path, topic: string, share: string, node: string, num: nat): (t': Store)
    requires at in t
    ensures t.Keys <= t'.Keys
    decreases |topic|
  {
    if topic == "" then t[at := t[at][share := Raised(GroupAt(t, at, share), node, num)]]
    else
      match NextLevel(topic)
      case Malformed => t
      case Level(level, rem) =>
        var next := at + [level];
        SInsert(if next in t then t else t[next := map[]], next, rem.GetOr(""), share, node, num)
  }

  datatype Removal = Refused | Removed(store: Store)

  /** sremove at the node under `at`; the empty share name means every group. */
  ghost function SRemove(t: Store, at: Path, topic: string, share: string, node: string): (r: Removal)
    requires at in t && Sound(t)
    ensures r.Removed? ==> Sound(r.store) && r.store.Keys <= t.Keys
    ensures r.Removed? ==> forall p <- t :: |p| <= |at| ==> p in r.store
    decreases |topic|
  {
    if topic == "" then
      var nd := GroupAt(t, at, share);
      if share == "" then Removed(t[at := map[]])
      else if IndexOf(nd, node) == |nd| then Refused
      else
        assert Good(Lowered(nd, IndexOf(nd, node))) by { LoweredWeights(nd, node); }
        Removed(t[at := t[at][share := Lowered(nd, IndexOf(nd, node))]])
    else
      match NextLevel(topic)
      case Malformed => Refused
      case Level(level, rem) =>
        var next := at + [level];
        if next !in t then Refused
        else
          match SRemove(t, next, rem.GetOr(""), share, node)
          case Refused => Refused
          case Removed(t') => Removed(Prune(t', next))
  }

  ghost predicate Bare(t: Store, at: Path)
    requires at in t
  {
    t[at] == map[] && forall k :: at + [k] !in t
  }

  ghost function Prune(t: Store, at: Path): (t': Store)
    requires at in t && Sound(t) && at != []
    ensures Sound(t') && t'.Keys <= t.Keys
    ensures forall p :: p != at && p in t ==> p in t' && t'[p] == t[p]
  {
    if Bare(t, at) then t - {at} else t
  }

  ghost predicate Sound(t: Store) {
    && [] in t
    && (forall p, k :: p + [k] in t ==> p in t)
    && (forall p <- t, share <- t[p] :: Good(t[p][share]))
  }

  lemma {:induction false} InsertSound(t: Store, at: Path, topic: string, share: string, node: string, num: nat)
    requires at in t && Sound(t) && num > 0
    ensures Sound(SInsert(t, at, topic, share, node, num))
    decreases |topic|
  {
    if topic == "" {
      RaisedWeights(GroupAt(t, at, share), node, num);
    } else {
      match NextLevel(topic)
      case Malformed =>
      case Level(level, rem) =>
        var next := at + [level];
        WithChild(t, at, level);
        InsertSound(if next in t then t else t[next := map[]], next, rem.GetOr(""), share, node, num);
    }
  }

  lemma WithChild(t: Store, at: Path, level: string)
    requires at in t && Sound(t)
    ensures at + [level] !in t ==> Sound(t[at + [level] := map[]])
  {
    forall p, k | p + [k] == at + [level] ensures p in t { SnocEqual(p, k, at, level); }
  }

  lemma AddedHere(t: Store, at: Path, share: string, node: string, num: nat, p: Path, s: string, v: string)
    requires at in t && Sound(t) && num > 0
    ensures WeightAt(t[at := t[at][share := Raised(GroupAt(t, at, share), node, num)]], p, s, v) ==
      WeightAt(t, p, s, v) + if p == at && s == share && v == node then num else 0
  {
    RaisedWeights(GroupAt(t, at, share), node, num);
  }

  /** An insertion raises one counter; a topic cut wrongly raises none. */
  lemma {:induction false} InsertWeights(t: Store, at: Path, topic: string, share: string, node: string, num: nat,
                                         p: Path, s: string, v: string)
    requires at in t && Sound(t) && num > 0
    ensures WeightAt(SInsert(t, at, topic, share, node, num), p, s, v) ==
      WeightAt(t, p, s, v) + if WalkFrom(at, topic) == Some(p) && s == share && v == node then num else 0
    decreases |topic|
  {
    hide Raised, Good, NextLevel;
    if topic == "" {
      assert at + [] == at && Walk("") == Some([]);
      AddedHere(t, at, share, node, num, p, s, v);
    } else if NextLevel(topic).Level? {
      var level, below := NextLevel(topic).level, NextLevel(topic).rem.GetOr("");
      var next := at + [level];
      WalkStep(at, topic);
      WithChild(t, at, level);
      InsertWeights(if next in t then t else t[next := map[]], next, below, share, node, num, p, s, v);
    }
  }

  /** Whether a removal has something to take. */
  predicate Takes(t: Store, path: Option<Path>, share: string, node: string) {
    path.Some? && WeightAt(t, path.value, share, node) > 0
  }

  /** A removal with a share name succeeds exactly when the counter is not zero. */
  lemma {:induction false} RemoveSucceeds(t: Store, at: Path, topic: string, share: string, node: string)
    requires at in t && Sound(t) && share != ""
    ensures SRemove(t, at, topic, share, node).Removed? <==> Takes(t, WalkFrom(at, topic), share, node)
    decreases |topic|
  {
    if topic == "" {
      assert at + [] == at;
    } else {
      match NextLevel(topic)
      case Malformed =>
      case Level(level, rem) =>
        WalkStep(at, topic);
        if at + [level] in t {
          RemoveSucceeds(t, at + [level], rem.GetOr(""), share, node);
        } else if WalkFrom(at, topic).Some? {
          NothingBelow(t, at + [level], Walk(rem.GetOr("")).value);
        }
    }
  }

  lemma TakenHere(t: Store, at: Path, share: string, node: string, p: Path, s: string, v: string)
    requires at in t && Sound(t) && IndexOf(GroupAt(t, at, share), node) < |GroupAt(t, at, share)|
    ensures var nd := GroupAt(t, at, share);
      WeightAt(t[at := t[at][share := Lowered(nd, IndexOf(nd, node))]], p, s, v) ==
      WeightAt(t, p, s, v) - if p == at && s == share && v == node then 1 else 0
  {
    LoweredWeights(GroupAt(t, at, share), node);
  }

  lemma PruneWeights(t: Store, at: Path, p: Path, s: string, v: string)
    requires at in t && Sound(t) && at != []
    ensures WeightAt(Prune(t, at), p, s, v) == WeightAt(t, p, s, v)
  {
  }

  /** A removal takes one from that counter alone. */
  lemma {:induction false} RemoveWeights(t: Store, at: Path, topic: string, share: string, node: string,
                                         p: Path, s: string, v: string)
    requires at in t && Sound(t) && share != "" && SRemove(t, at, topic, share, node).Removed?
    ensures WeightAt(SRemove(t, at, topic, share, node).store, p, s, v) ==
      WeightAt(t, p, s, v) - if WalkFrom(at, topic) == Some(p) && s == share && v == node then 1 else 0
    decreases |topic|
  {
    hide WeightAt, Prune, Lowered, Good, Sound, NextLevel;
    if topic == "" {
      assert at + [] == at && Walk("") == Some([]);
      TakenHere(t, at, share, node, p, s, v);
    } else {
      var next := at + [NextLevel(topic).level];
      var below := NextLevel(topic).rem.GetOr("");
      WalkStep(at, topic);
      RemoveWeights(t, next, below, share, node, p, s, v);
      PruneWeights(SRemove(t, next, below, share, node).store, next, p, s, v);
    }
  }

  /** A removal without a share name clears every counter of its topic and no other. */
  lemma {:induction false} ClearWeights(t: Store, at: Path, topic: string, node: string, p: Path, s: string, v: string)
    requires at in t && Sound(t)
    ensures var r := SRemove(t, at, topic, "", node); var path := WalkFrom(at, topic);
      && (r.Removed? <==> path.Some? && path.value in t)
      && WeightAt(if r.Removed? then r.store else t, p, s, v) == if path == Some(p) then 0 else WeightAt(t, p, s, v)
    decreases |topic|
  {
    if topic == "" {
      assert at + [] == at && Walk("") == Some([]);
    } else if NextLevel(topic).Level? {
      var next := at + [NextLevel(topic).level];
      var below := NextLevel(topic).rem.GetOr("");
      WalkStep(at, topic);
      if next in t {
        ClearWeights(t, next, below, node, p, s, v);
        if SRemove(t, next, below, "", node).Removed? {
          PruneWeights(SRemove(t, next, below, "", node).store, next, p, s, v);
        }
      } else if Walk(below).Some? {
        NothingBelow(t, next, Walk(below).value);
      }
    }
  }

  // ---------- runs ----------

  datatype Op = Add(topic: string, share: string, node: string, num: nat)
              | Take(topic: string, share: string, node: string)

  predicate OpOk(op: Op) {
    op.Add? ==> op.num > 0
  }

  ghost function Apply(t: Store, op: Op): Store
    requires Sound(t) && OpOk(op)
  {
    match op
    case Add(topic, share, node, num) => SInsert(t, [], topic, share, node, num)
    case Take(topic, share, node) =>
      match SRemove(t, [], topic, share, node)
      case Refused => t
      case Removed(t') => t'
  }

  /** One operation on one counter. */
  function Count(w: nat, op: Op, p: Path, share: string, node: string): nat {
    if Walk(op.topic) != Some(p) then w
    else if op.Take? && op.share == "" then 0
    else if op.share != share || op.node != node then w
    else match op
      case Add(_, _, _, num) => w + num
      case Take(_, _, _) => if w > 0 then w - 1 else 0
  }

  function CountAll(w: nat, ops: seq<Op>, p: Path, share: string, node: string): nat
    decreases |ops|
  {
    if ops == [] then w else CountAll(Count(w, ops[0], p, share, node), ops[1..], p, share, node)
  }

  ghost function Run(t: Store, ops: seq<Op>): Store
    requires Sound(t) && forall op <- ops :: OpOk(op)
    decreases |ops|
  {
    if ops == [] then t
    else
      assert Sound(Apply(t, ops[0])) by { ApplyCounts(t, ops[0]); }
      Run(Apply(t, ops[0]), ops[1..])
  }

  lemma ApplyCounts(t: Store, op: Op)
    requires Sound(t) && OpOk(op)
    ensures Sound(Apply(t, op))
    ensures forall p, s, v :: WeightAt(Apply(t, op), p, s, v) == Count(WeightAt(t, p, s, v), op, p, s, v)
  {
    assert forall p: Path :: [] + p == p;
    if op.Add? {
      InsertSound(t, [], op.topic, op.share, op.node, op.num);
    } else if op.share != "" {
      RemoveSucceeds(t, [], op.topic, op.share, op.node);
    }
    forall p, s, v ensures WeightAt(Apply(t, op), p, s, v) == Count(WeightAt(t, p, s, v), op, p, s, v) {
      if op.Add? {
        InsertWeights(t, [], op.topic, op.share, op.node, op.num, p, s, v);
      } else if op.share == "" {
        ClearWeights(t, [], op.topic, op.node, p, s, v);
      } else if SRemove(t, [], op.topic, op.share, op.node).Removed? {
        RemoveWeights(t, [], op.topic, op.share, op.node, p, s, v);
      }
    }
  }

  /** After any run every weight is what was added less what was taken while there was some
      and less what was cleared,
      and a node that is listed has a weight. */
  lemma {:induction false} RunCounts(t: Store, ops: seq<Op>)
    requires Sound(t) && forall op <- ops :: OpOk(op)
    ensures Sound(Run(t, ops))
    ensures forall p, s, v :: WeightAt(Run(t, ops), p, s, v) == CountAll(WeightAt(t, p, s, v), ops, p, s, v)
    decreases |ops|
  {
    if ops != [] {
      ApplyCounts(t, ops[0]);
      RunCounts(Apply(t, ops[0]), ops[1..]);
    }
  }

  lemma {:induction false} RunSnoc(t: Store, ops: seq<Op>, op: Op)
    requires Sound(t) && OpOk(op) && forall o <- ops :: OpOk(o)
    ensures Sound(Run(t, ops)) && Run(t, ops + [op]) == Apply(Run(t, ops), op)
    decreases |ops|
  {
    RunCounts(t, ops);
    if ops == [] {
      ApplyCounts(t, op);
      assert [op][1..] == [];
    } else {
      ApplyCounts(t, ops[0]);
      RunSnoc(Apply(t, ops[0]), ops[1..], op);
      assert (ops + [op])[1..] == ops[1..] + [op];
    }
  }

  lemma {:induction false} CountSnoc(w: nat, ops: seq<Op>, op: Op, p: Path, share: string, node: string)
    ensures CountAll(w, ops + [op], p, share, node) == Count(CountAll(w, ops, p, share, node), op, p, share, node)
    decreases |ops|
  {
    if ops == [] {
      assert [op][1..] == [];
    } else {
      CountSnoc(Count(w, ops[0], p, share, node), ops[1..], op, p, share, node);
      assert (ops + [op])[1..] == ops[1..] + [op];
    }
  }
}
