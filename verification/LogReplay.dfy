/**
  The replay of the event table into the node map: server.go. What a merged table builds is
  what the whole history builds.
 */
module LogReplay {
  import opened Options
  import opened Paths
  import opened TopicLevels
  import opened EventLog
  import NodeWeights
  import opened NodeMap
  import Compaction

  const SHARE_PREFIX := "$share/"

  // ---------- share names ----------

  datatype Shared = Shared(share: string, topic: string)

  /** What shareTopic returns: the share name up to the next separator and what follows it;
      no share name when the prefix or the separator is missing. */
  function ShareTopic(b: string): Shared {
    if !(SHARE_PREFIX <= b) then Shared("", b)
    else
      var rest := b[|SHARE_PREFIX|..];
      var k := FirstSeparator(rest);
      if k == |rest| then Shared("", b) else Shared(rest[..k], rest[k + 1..])
  }

  method ScanShareTopic(b: string) returns (r: Shared)
    ensures r == ShareTopic(b)
  {
    var n := |SHARE_PREFIX|;
    if |b| < n {
      return Shared("", b);
    }
    for i := 0 to n
      invariant forall j :: 0 <= j < i ==> b[j] == SHARE_PREFIX[j]
    {
      if b[i] != SHARE_PREFIX[i] {
        return Shared("", b);
      }
    }
    ghost var rest := b[n..];
    for i := n to |b|
      invariant forall j :: 0 <= j < i - n ==> rest[j] != '/'
    {
      assert rest[i - n] == b[i];
      if b[i] == '/' {
        FirstSeparatorIsFirst(rest, i - n);
        return Shared(b[n..i], b[i + 1..]);
      }
    }
    FirstSeparatorIsFirst(rest, |rest|);
    return Shared("", b);
  }

  /** A share name and a topic are read back exactly where they were put together, and the
      name has no separator. */
  lemma ShareTopicReads(b: string, share: string, topic: string)
    requires share != ""
    ensures ShareTopic(b) == Shared(share, topic) <==> '/' !in share && b == SHARE_PREFIX + share + "/" + topic
  {
    if '/' !in share && b == SHARE_PREFIX + share + "/" + topic {
      PutTogether(share, topic);
      assert SHARE_PREFIX + share + "/" + topic == SHARE_PREFIX + (share + "/" + topic);
    }
    if ShareTopic(b) == Shared(share, topic) {
      TakenApart(b);
    }
  }

  lemma PutTogether(share: string, topic: string)
    requires share != "" && '/' !in share
    ensures ShareTopic(SHARE_PREFIX + (share + "/" + topic)) == Shared(share, topic)
  {
    var rest := share + "/" + topic;
    FirstSeparatorIsFirst(rest, |share|);
    assert rest[..|share|] == share && rest[|share| + 1..] == topic;
  }

  lemma TakenApart(b: string)
    requires ShareTopic(b).share != ""
    ensures var r := ShareTopic(b); '/' !in r.share && b == SHARE_PREFIX + r.share + "/" + r.topic
  {
  }

  // ---------- the replay ----------

  /** What one row does to the node map. */
  function OpOf(r: Row): seq<NodeWeights.Op> {
    var shared := ShareTopic(r.topic);
    if shared.share == "" then []
    else if r.kind == 1 then [NodeWeights.Add(shared.topic, shared.share, r.sender, r.num + 1)]
    else if r.kind == 2 then [NodeWeights.Take(shared.topic, shared.share, r.sender)]
    else []
  }

  function OpsOf(rows: seq<Row>): seq<NodeWeights.Op> {
    if rows == [] then [] else OpsOf(rows[..|rows| - 1]) + OpOf(rows[|rows| - 1])
  }

  lemma {:induction false} OpsOk(rows: seq<Row>)
    ensures forall op <- OpsOf(rows) :: NodeWeights.OpOk(op)
  {
    if rows != [] { OpsOk(rows[..|rows| - 1]); }
  }

  ghost function Built(rows: seq<Row>): NodeWeights.Store {
    OpsOk(rows);
    NodeWeights.Run(NodeWeights.EMPTY, OpsOf(rows))
  }

  /** The loop that initialises a node's map from the whole table. */
  method ReplayAll(rows: seq<Row>) returns (m: MemTopicMapNode)
    ensures fresh(m) && m.Valid() && m.t == Built(rows)
  {
    m := new MemTopicMapNode();
    assert Built(rows[..0]) == NodeWeights.EMPTY;
    hide Built, Linked, Holds, WellCut, NodeWeights.Sound, NodeWeights.Apply, OpOf;
    for i := 0 to |rows|
      invariant m.Valid() && fresh(m) && (forall p <- m.nodes :: fresh(m.nodes[p]))
      invariant m.t == Built(rows[..i])
    {
      BuiltNext(rows, i);
      ReplayRow(m, rows[i]);
    }
    assert rows[..|rows|] == rows;
  }

  lemma BuiltNext(rows: seq<Row>, i: nat)
    requires i < |rows|
    ensures NodeWeights.Sound(Built(rows[..i])) && NodeWeights.Sound(Built(rows[..i + 1]))
    ensures OpOf(rows[i]) == [] ==> Built(rows[..i + 1]) == Built(rows[..i])
    ensures OpOf(rows[i]) != [] ==> NodeWeights.OpOk(OpOf(rows[i])[0])
    ensures OpOf(rows[i]) != [] ==> Built(rows[..i + 1]) == NodeWeights.Apply(Built(rows[..i]), OpOf(rows[i])[0])
  {
    OpsOk(rows[..i]);
    OpsOk(rows[..i + 1]);
    assert rows[..i + 1][..i] == rows[..i];
    var ops, op := OpsOf(rows[..i]), OpOf(rows[i]);
    assert OpsOf(rows[..i + 1]) == ops + op;
    NodeWeights.RunCounts(NodeWeights.EMPTY, ops);
    NodeWeights.RunCounts(NodeWeights.EMPTY, ops + op);
    if op == [] {
      assert ops + op == ops;
    } else {
      assert op == [op[0]];
      NodeWeights.RunSnoc(NodeWeights.EMPTY, ops, op[0]);
    }
  }

  method ReplayRow(m: MemTopicMapNode, r: Row)
    requires m.Valid()
    modifies m, m.nodes.Values
    ensures m.Valid() && m.t == if OpOf(r) == [] then old(m.t) else NodeWeights.Apply(old(m.t), OpOf(r)[0])
    ensures forall p <- m.nodes :: fresh(m.nodes[p]) || (p in old(m.nodes) && m.nodes[p] == old(m.nodes)[p])
  {
    hide Linked, Holds, WellCut, NodeWeights.Sound, NodeWeights.Apply, ShareTopic;
    if r.kind == 1 {
      SubRow(m, r);
    } else if r.kind == 2 {
      UnSubRow(m, r);
    }
  }

  method SubRow(m: MemTopicMapNode, r: Row)
    requires m.Valid() && r.kind == 1
    modifies m, m.nodes.Values
    ensures m.Valid() && m.t == if OpOf(r) == [] then old(m.t) else NodeWeights.Apply(old(m.t), OpOf(r)[0])
    ensures forall p <- m.nodes :: fresh(m.nodes[p]) || (p in old(m.nodes) && m.nodes[p] == old(m.nodes)[p])
  {
    var shared := ScanShareTopic(r.topic);
    if shared.share != "" {
      var _ := m.Subscribe(shared.topic, shared.share, r.sender, r.num + 1);
    }
  }

  method UnSubRow(m: MemTopicMapNode, r: Row)
    requires m.Valid() && r.kind == 2
    modifies m, m.nodes.Values
    ensures m.Valid() && m.t == if OpOf(r) == [] then old(m.t) else NodeWeights.Apply(old(m.t), OpOf(r)[0])
    ensures forall p <- m.nodes :: fresh(m.nodes[p]) || (p in old(m.nodes) && m.nodes[p] == old(m.nodes)[p])
  {
    var shared := ScanShareTopic(r.topic);
    if shared.share != "" {
      var _ := m.Unsubscribe(shared.topic, shared.share, r.sender);
    }
  }

  // ---------- what the replay builds ----------

  /** A counter of the node map. */
  datatype Place = Place(path: Path, share: string, node: string)

  ghost function WeightOf(t: NodeWeights.Store, at: Place): nat {
    NodeWeights.WeightAt(t, at.path, at.share, at.node)
  }

  /** The keys of the table that count there; several topics may, an extra separator at
      either end being lost. */
  predicate Hits(k: Key, at: Place) {
    var shared := ShareTopic(k.1);
    shared.share != "" && shared.share == at.share && k.0 == at.node && Walk(shared.topic) == Some(at.path)
  }

  /** The rows that count at a place, in order. */
  function PlaceRows(rows: seq<Row>, at: Place): seq<Row> {
    if rows == [] then []
    else (if Hits(KeyOf(rows[0]), at) && rows[0].kind in {1, 2} then [rows[0]] else []) + PlaceRows(rows[1..], at)
  }

  lemma {:induction false} PlaceRowsJoin(a: seq<Row>, b: seq<Row>, at: Place)
    ensures PlaceRows(a + b, at) == PlaceRows(a, at) + PlaceRows(b, at)
  {
    hide Hits;
    if a == [] {
      assert a + b == b;
    } else {
      assert (a + b)[1..] == a[1..] + b;
      PlaceRowsJoin(a[1..], b, at);
      var one := if Hits(KeyOf(a[0]), at) && a[0].kind in {1, 2} then [a[0]] else [];
      Regroup(one, PlaceRows(a[1..], at), PlaceRows(b, at));
    }
  }

  lemma PlaceRowsSnoc(rows: seq<Row>, r: Row, at: Place)
    ensures PlaceRows(rows + [r], at) ==
      PlaceRows(rows, at) + if Hits(KeyOf(r), at) && r.kind in {1, 2} then [r] else []
  {
    hide Hits;
    PlaceRowsJoin(rows, [r], at);
    assert [r][1..] == [];
  }

  lemma CountNext(before: seq<Row>, r: Row, at: Place)
    requires at.share != ""
    ensures (before + [r])[..|before|] == before
    ensures var w := NodeWeights.CountAll(0, OpsOf(before), at.path, at.share, at.node);
      NodeWeights.CountAll(0, OpsOf(before + [r]), at.path, at.share, at.node) ==
      if !Hits(KeyOf(r), at) || (r.kind == 2 && w == 0) then w else w + Change(r)
  {
    assert (before + [r])[..|before|] == before;
    assert OpsOf(before + [r]) == OpsOf(before) + OpOf(r);
    if OpOf(r) == [] {
      assert OpsOf(before) + [] == OpsOf(before);
    } else {
      assert OpOf(r) == [OpOf(r)[0]];
      NodeWeights.CountSnoc(0, OpsOf(before), OpOf(r)[0], at.path, at.share, at.node);
    }
  }

  lemma {:induction false} NoNameless(rows: seq<Row>, at: Place)
    requires at.share == ""
    ensures NodeWeights.CountAll(0, OpsOf(rows), at.path, at.share, at.node) == 0
  {
    if rows != [] {
      var before, op := rows[..|rows| - 1], OpOf(rows[|rows| - 1]);
      NoNameless(before, at);
      if op == [] {
        assert OpsOf(before) + [] == OpsOf(before);
      } else {
        assert op == [op[0]];
        NodeWeights.CountSnoc(0, OpsOf(before), op[0], at.path, at.share, at.node);
      }
    }
  }

  lemma {:induction false} CountIsReplay(rows: seq<Row>, at: Place)
    requires at.share != ""
    ensures NodeWeights.CountAll(0, OpsOf(rows), at.path, at.share, at.node) == Replay(0, PlaceRows(rows, at))
  {
    if rows != [] {
      var before, r := rows[..|rows| - 1], rows[|rows| - 1];
      assert rows == before + [r];
      CountIsReplay(before, at);
      CountNext(before, r, at);
      PlaceRowsSnoc(before, r, at);
      var one := if Hits(KeyOf(r), at) && r.kind in {1, 2} then [r] else [];
      ReplayJoin(0, PlaceRows(before, at), one);
      hide Hits, OpsOf, PlaceRows, NodeWeights.CountAll;
      assert one != [] ==> one[1..] == [];
    }
  }

  /** The replay builds, from any table, at each place what replaying the rows that count
      there yields. */
  lemma BuiltIsReplay(rows: seq<Row>, at: Place)
    ensures WeightOf(Built(rows), at) == if at.share == "" then 0 else Replay(0, PlaceRows(rows, at))
  {
    OpsOk(rows);
    NodeWeights.RunCounts(NodeWeights.EMPTY, OpsOf(rows));
    if at.share == "" {
      NoNameless(rows, at);
    } else {
      CountIsReplay(rows, at);
    }
  }

  /** The net counts of the listed keys that count at a place. */
  function Sum(rows: seq<Row>, keys: seq<Key>, at: Place): int {
    if keys == [] then 0
    else (if Hits(keys[0], at) then Net(KeyRows(rows, keys[0])) else 0) + Sum(rows, keys[1..], at)
  }

  predicate Once(keys: seq<Key>) {
    forall i, j :: 0 <= i < j < |keys| ==> keys[i] != keys[j]
  }

  lemma {:induction false} SumEmpty(keys: seq<Key>, at: Place)
    ensures Sum([], keys, at) == 0
  {
    if keys != [] { SumEmpty(keys[1..], at); }
  }

  lemma NetNext(rows: seq<Row>, r: Row, k: Key)
    ensures Net(KeyRows(rows + [r], k)) == Net(KeyRows(rows, k)) + if KeyOf(r) == k then Change(r) else 0
  {
    KeyRowsSnoc(rows, r, k);
    var one := if KeyOf(r) == k && r.kind in {1, 2} then [r] else [];
    assert one != [] ==> one[1..] == [];
    NetJoin(KeyRows(rows, k), one);
  }

  lemma {:induction false} SumNext(rows: seq<Row>, r: Row, keys: seq<Key>, at: Place)
    requires Once(keys)
    ensures Sum(rows + [r], keys, at) ==
      Sum(rows, keys, at) + if KeyOf(r) in keys && Hits(KeyOf(r), at) then Change(r) else 0
  {
    if keys != [] {
      SumNext(rows, r, keys[1..], at);
      NetNext(rows, r, keys[0]);
      assert forall j :: 0 < j < |keys| ==> keys[j] != keys[0];
    }
  }

  lemma {:induction false} PlaceNet(rows: seq<Row>, keys: seq<Key>, at: Place)
    requires Once(keys) && forall r <- rows :: KeyOf(r) in keys
    ensures Net(PlaceRows(rows, at)) == Sum(rows, keys, at)
  {
    if rows == [] {
      SumEmpty(keys, at);
    } else {
      var before, r := rows[..|rows| - 1], rows[|rows| - 1];
      assert rows == before + [r];
      PlaceNet(before, keys, at);
      SumNext(before, r, keys, at);
      PlaceRowsSnoc(before, r, at);
      var one := if Hits(KeyOf(r), at) && r.kind in {1, 2} then [r] else [];
      NetJoin(PlaceRows(before, at), one);
      hide Hits, Sum, PlaceRows, Once;
      assert one != [] ==> one[1..] == [];
    }
  }

  /** It is the sum of the net counts of the keys that count there exactly if at no point of
      the table these together fall below zero. */
  lemma BuiltIsSum(rows: seq<Row>, keys: seq<Key>, at: Place)
    requires Once(keys) && (forall r <- rows :: KeyOf(r) in keys) && at.share != ""
    ensures WeightOf(Built(rows), at) == Sum(rows, keys, at) <==> NeverBelow(0, PlaceRows(rows, at))
  {
    BuiltIsReplay(rows, at);
    PlaceNet(rows, keys, at);
    ReplayIsNet(0, PlaceRows(rows, at));
  }

  /** No key that counts at the place falls below zero. */
  ghost predicate PlaceInOrder(rows: seq<Row>, at: Place) {
    forall k :: Hits(k, at) ==> NeverBelow(0, KeyRows(rows, k))
  }

  lemma PlaceBefore(rows: seq<Row>, r: Row, at: Place)
    requires PlaceInOrder(rows + [r], at)
    ensures PlaceInOrder(rows, at)
  {
    hide Hits;
    forall k | Hits(k, at) ensures NeverBelow(0, KeyRows(rows, k)) {
      assert NeverBelow(0, KeyRows(rows + [r], k));
      KeyRowsSnoc(rows, r, k);
      BelowJoin(0, KeyRows(rows, k), if KeyOf(r) == k && r.kind in {1, 2} then [r] else []);
    }
  }

  lemma {:induction false} SumNotBelow(rows: seq<Row>, keys: seq<Key>, at: Place)
    requires PlaceInOrder(rows, at)
    ensures Sum(rows, keys, at) >= 0
  {
    if keys != [] {
      SumNotBelow(rows, keys[1..], at);
      if Hits(keys[0], at) {
        assert NeverBelow(0, KeyRows(rows, keys[0]));
        BelowAtEnd(0, KeyRows(rows, keys[0]));
      }
    }
  }

  /** Then neither do they together. */
  lemma {:induction false} TogetherInOrder(rows: seq<Row>, keys: seq<Key>, at: Place)
    requires Once(keys) && (forall r <- rows :: KeyOf(r) in keys) && PlaceInOrder(rows, at)
    ensures NeverBelow(0, PlaceRows(rows, at))
  {
    if rows != [] {
      var before, r := rows[..|rows| - 1], rows[|rows| - 1];
      assert rows == before + [r];
      PlaceBefore(before, r, at);
      TogetherInOrder(before, keys, at);
      PlaceRowsSnoc(before, r, at);
      PlaceNet(rows, keys, at);
      SumNotBelow(rows, keys, at);
      hide Hits, PlaceRows, PlaceInOrder, Sum, Once;
      BelowSnoc(PlaceRows(before, at), r);
      assert PlaceRows(before, at) + [] == PlaceRows(before, at);
    }
  }

  lemma BelowSnoc(rows: seq<Row>, r: Row)
    requires NeverBelow(0, rows)
    ensures NeverBelow(0, rows + [r]) <==> Net(rows + [r]) >= 0
  {
    assert [r][1..] == [] && Net([r]) == Change(r);
    BelowJoin(0, rows, [r]);
    BelowAtEnd(0, rows);
    NetJoin(rows, [r]);
  }

  function KeysOf(rows: seq<Row>): (keys: seq<Key>)
    ensures Once(keys) && forall r <- rows :: KeyOf(r) in keys
  {
    if rows == [] then []
    else
      var rest := KeysOf(rows[1..]);
      if KeyOf(rows[0]) in rest then rest else [KeyOf(rows[0])] + rest
  }

  lemma {:induction false} SameSum(rows: seq<Row>, rows': seq<Row>, keys: seq<Key>, at: Place)
    requires PlaceInOrder(rows, at) && PlaceInOrder(rows', at)
    requires forall k :: Hits(k, at) ==> Weight(rows', k) == Weight(rows, k)
    ensures Sum(rows', keys, at) == Sum(rows, keys, at)
  {
    if keys != [] {
      SameSum(rows, rows', keys[1..], at);
      if Hits(keys[0], at) {
        assert NeverBelow(0, KeyRows(rows, keys[0])) && NeverBelow(0, KeyRows(rows', keys[0]));
        ReplayIsNet(0, KeyRows(rows, keys[0]));
        ReplayIsNet(0, KeyRows(rows', keys[0]));
        assert Weight(rows', keys[0]) == Weight(rows, keys[0]);
      }
    }
  }

  /** Tables that give the keys of a place the same weights, none of these falling below zero
      in either, build the same counter there, though several keys may share it. */
  lemma SameWeightsSameMap(rows: seq<Row>, rows': seq<Row>, at: Place)
    requires PlaceInOrder(rows, at) && PlaceInOrder(rows', at)
    requires forall k :: Hits(k, at) ==> Weight(rows', k) == Weight(rows, k)
    ensures WeightOf(Built(rows'), at) == WeightOf(Built(rows), at)
  {
    var keys := KeysOf(rows + rows');
    assert forall r <- rows :: r in rows + rows';
    assert forall r <- rows' :: r in rows + rows';
    hide Built, Sum, PlaceInOrder, Hits, Once, PlaceRows;
    BuiltIsReplay(rows, at);
    BuiltIsReplay(rows', at);
    if at.share != "" {
      TogetherInOrder(rows, keys, at);
      TogetherInOrder(rows', keys, at);
      BuiltIsSum(rows, keys, at);
      BuiltIsSum(rows', keys, at);
      SameSum(rows, rows', keys, at);
    }
  }

  // ---------- one key alone at its place ----------

  /** No other key with rows in the table counts there. */
  ghost predicate Alone(rows: seq<Row>, k: Key, at: Place) {
    Hits(k, at) && forall key :: key != k && Hits(key, at) ==> KeyRows(rows, key) == []
  }

  lemma {:induction false} AloneRows(rows: seq<Row>, k: Key, at: Place)
    requires Alone(rows, k, at)
    ensures PlaceRows(rows, at) == KeyRows(rows, k)
  {
    hide Hits;
    if rows != [] {
      var key := KeyOf(rows[0]);
      assert key != k && Hits(key, at) ==> KeyRows(rows, key) == [];
      forall other | other != k && Hits(other, at) ensures KeyRows(rows[1..], other) == [] {
        assert KeyRows(rows, other) == [];
      }
      AloneRows(rows[1..], k, at);
    }
  }

  /** Then its counter is the key's weight. */
  lemma AloneWeight(rows: seq<Row>, k: Key, at: Place)
    requires Alone(rows, k, at)
    ensures WeightOf(Built(rows), at) == Weight(rows, k)
  {
    BuiltIsReplay(rows, at);
    AloneRows(rows, k, at);
  }

  // ---------- merges ----------

  /** Rows not named keep their places. */
  lemma {:induction false} PlaceUnnamed(rows: seq<Row>, id: nat, num: nat, del: set<nat>, at: Place)
    requires forall r <- rows :: Hits(KeyOf(r), at) ==> r.id != id && r.id !in del
    ensures PlaceRows(UpdateDelete(rows, id, num, del), at) == PlaceRows(rows, at)
  {
    hide Hits;
    if rows != [] {
      PlaceUnnamed(rows[1..], id, num, del, at);
      var one := Edit(rows[0], id, num, del);
      PlaceRowsJoin(one, UpdateDelete(rows[1..], id, num, del), at);
      assert one != [] ==> one[1..] == [];
    }
  }

  lemma MergeElsewhere(rows: seq<Row>, cut: nat, k: Key, at: Place)
    requires Ordered(rows) && Main(Looked(rows, cut, k)) != [] && !Hits(k, at)
    ensures PlaceRows(AfterMerge(rows, Main(Looked(rows, cut, k))), at) == PlaceRows(rows, at)
  {
    var a := Looked(rows, cut, k);
    var m := Main(a);
    MainWithin(a);
    KeyParts(rows, cut, k);
    hide KeyRows, Upto, Main, Hits, PlaceRows, UpdateDelete, MergeDel, MergeNum;
    assert forall i :: 0 <= i < |m| ==> m[i] in a;
    forall r <- rows | Hits(KeyOf(r), at) ensures r.id != m[0].id && r.id !in MergeDel(m) {
      OthersUnnamed(rows, m, KeyOf(r), k);
    }
    PlaceUnnamed(rows, m[0].id, MergeNum(m), MergeDel(m), at);
  }

  /** A merge leaves the counters elsewhere, whatever the table; that of its own place when
      all keys there are in order; and that of a key alone at its place exactly when its
      rows are mergeable, as far as the rows looked at go. */
  lemma MergeKeepsMap(rows: seq<Row>, cut: nat, k: Key, at: Place)
    requires LogOk(rows) && Main(Looked(rows, cut, k)) != []
    ensures var rows' := AfterMerge(rows, Main(Looked(rows, cut, k)));
      var same := WeightOf(Built(rows'), at) == WeightOf(Built(rows), at);
      && (!Hits(k, at) || PlaceInOrder(rows, at) ==> same)
      && (Alone(rows, k, at) && Mergeable(Looked(rows, cut, k)) ==> same)
      && (Alone(rows, k, at) && Beyond(rows, cut) == [] ==> (same <==> Mergeable(Looked(rows, cut, k))))
  {
    hide Built, Mergeable, AfterMerge, Looked, Hits, Main, PlaceInOrder, LogOk, Weight, Beyond;
    var rows' := AfterMerge(rows, Main(Looked(rows, cut, k)));
    OkIsOrdered(rows);
    if !Hits(k, at) {
      MergeElsewhere(rows, cut, k, at);
      BuiltIsReplay(rows, at);
      BuiltIsReplay(rows', at);
    } else {
      MergeKeepsWeights(rows, cut, k);
      if PlaceInOrder(rows, at) {
        MergeInOrder(rows, cut, k, at);
        SameWeightsSameMap(rows, rows', at);
      }
      if Alone(rows, k, at) {
        MergeAlone(rows, cut, k, at);
        AloneWeight(rows, k, at);
        AloneWeight(rows', k, at);
        if Beyond(rows, cut) == [] {
          LookedAll(rows, cut, k);
        }
      }
    }
  }

  lemma MergeInOrder(rows: seq<Row>, cut: nat, k: Key, at: Place)
    requires LogOk(rows) && Main(Looked(rows, cut, k)) != [] && PlaceInOrder(rows, at) && Hits(k, at)
    ensures var rows' := AfterMerge(rows, Main(Looked(rows, cut, k)));
      PlaceInOrder(rows', at) && Mergeable(Looked(rows, cut, k))
  {
    hide Hits, AfterMerge;
    var a, b := Looked(rows, cut, k), KeyRows(Beyond(rows, cut), k);
    OkIsOrdered(rows);
    KeyParts(rows, cut, k);
    KeyRowsKinds(Upto(rows, cut), k);
    KeyRowsKinds(Beyond(rows, cut), k);
    MergeRows(rows, cut, k);
    hide KeyRows, Looked, Upto, Beyond, LogOk;
    assert NeverBelow(0, a + b);
    BelowJoin(0, a, b);
    NoLead(a);
    MergedInOrder(a, b);
    assert MergedRows(a) == [] + Merged(a);
    assert [] + Merged(a) == Merged(a);
  }

  lemma MergeAlone(rows: seq<Row>, cut: nat, k: Key, at: Place)
    requires LogOk(rows) && Main(Looked(rows, cut, k)) != [] && Alone(rows, k, at)
    ensures Alone(AfterMerge(rows, Main(Looked(rows, cut, k))), k, at)
  {
    hide Hits, LogOk, KeyRows, AfterMerge, Looked, Beyond, MergedRows, Main;
    MergeRows(rows, cut, k);
  }

  lemma LookedAll(rows: seq<Row>, cut: nat, k: Key)
    requires LogOk(rows) && Main(Looked(rows, cut, k)) != [] && Beyond(rows, cut) == []
    ensures var rows' := AfterMerge(rows, Main(Looked(rows, cut, k)));
      Weight(rows, k) == Replay(0, Looked(rows, cut, k)) && Weight(rows', k) == Replay(0, Looked(rows', cut, k))
  {
    MergeRows(rows, cut, k);
    hide AfterMerge, LogOk, MergedRows;
    OkIsOrdered(rows);
    KeyParts(rows, cut, k);
    assert KeyRows([], k) == [];
    hide KeyRows;
    var a, rows' := Looked(rows, cut, k), AfterMerge(rows, Main(Looked(rows, cut, k)));
    assert a + [] == a && MergedRows(a) + [] == MergedRows(a);
  }

  /** Whatever passes, appends and failures the table went through, a node that starts from
      it builds, at each place whose keys' events are in order, what the whole history of
      events builds; no other place and no other key matters. */
  lemma TableBuildsHistory(table: Compaction.SubTable, at: Place)
    requires table.Valid()
    ensures PlaceInOrder(table.events, at) ==> WeightOf(Built(table.rows), at) == WeightOf(Built(table.events), at)
    ensures forall k :: Alone(table.events, k, at) && InOrder(KeyRows(table.events, k)) ==>
      WeightOf(Built(table.rows), at) == WeightOf(Built(table.events), at)
  {
    hide Built, Hits, Alone;
    var rows, events := table.rows, table.events;
    if PlaceInOrder(events, at) {
      TableInOrder(rows, events, table.nextId, at);
      SameWeightsSameMap(events, rows, at);
    }
    forall k | Alone(events, k, at) && InOrder(KeyRows(events, k))
      ensures WeightOf(Built(rows), at) == WeightOf(Built(events), at)
    {
      TableAlone(rows, events, table.nextId, k, at);
      Compaction.SameWeight(rows, events, table.nextId, k);
      AloneWeight(rows, k, at);
      AloneWeight(events, k, at);
    }
  }

  lemma TableAlone(rows: seq<Row>, events: seq<Row>, nextId: nat, k: Key, at: Place)
    requires Compaction.TableOk(rows, events, nextId) && Alone(events, k, at)
    ensures Alone(rows, k, at)
  {
    hide Hits, KeyRows;
    forall key | key != k && Hits(key, at) ensures KeyRows(rows, key) == [] {
      assert Compaction.InStep(rows, events, key);
      LeadSplit(KeyRows(rows, key));
    }
  }

  lemma TableInOrder(rows: seq<Row>, events: seq<Row>, nextId: nat, at: Place)
    requires Compaction.TableOk(rows, events, nextId) && PlaceInOrder(events, at)
    ensures PlaceInOrder(rows, at)
    ensures forall k :: Hits(k, at) ==> Weight(rows, k) == Weight(events, k)
  {
    hide Hits, Weight;
    forall k | Hits(k, at) ensures NeverBelow(0, KeyRows(rows, k)) && Weight(rows, k) == Weight(events, k) {
      var own, e := KeyRows(rows, k), KeyRows(events, k);
      assert NeverBelow(0, e);
      KeyRowsKinds(events, k);
      NoLead(e);
      assert Compaction.InStep(rows, events, k);
      Compaction.SameWeight(rows, events, nextId, k);
      LeadSplit(own);
      assert [] + Main(own) == Main(own);
    }
  }
}
