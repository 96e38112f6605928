/**
  The table of subscribe and unsubscribe events as a value: what a replay of it yields for
  each (sender, topic), and what merging a key's rows does to that.
 */
module EventLog {
  /** autocompress.Sub with one topic; `kind` is SubOrUnSub, 1 for subscribe, 2 for
      unsubscribe, and a subscribe row stands for num + 1 of them. */
  datatype Row = Row(id: nat, kind: nat, sender: string, topic: string, num: nat)

  type Key = (string, string)

  function KeyOf(r: Row): Key {
    (r.sender, r.topic)
  }

  /** The rows a replay acts on for a key, in order. */
  function KeyRows(rows: seq<Row>, k: Key): seq<Row> {
    if rows == [] then []
    else (if KeyOf(rows[0]) == k && rows[0].kind in {1, 2} then [rows[0]] else []) + KeyRows(rows[1..], k)
  }

  /** One event on a weight: an unsubscribe of what is not there fails and changes nothing. */
  function Next(w: nat, r: Row): nat {
    if r.kind == 1 then w + r.num + 1 else if r.kind == 2 && w > 0 then w - 1 else w
  }

  function Replay(w: nat, rows: seq<Row>): nat
    decreases |rows|
  {
    if rows == [] then w else Replay(Next(w, rows[0]), rows[1..])
  }

  /** The weight of a key after a replay of the whole table from empty. */
  function Weight(rows: seq<Row>, k: Key): nat {
    Replay(0, KeyRows(rows, k))
  }

  function Change(r: Row): int {
    if r.kind == 1 then r.num + 1 else if r.kind == 2 then -1 else 0
  }

  /** The net count of events. */
  function Net(rows: seq<Row>): int {
    if rows == [] then 0 else Change(rows[0]) + Net(rows[1..])
  }

  /** Starting from w, no prefix takes the count below zero. */
  predicate NeverBelow(w: int, rows: seq<Row>)
    decreases |rows|
  {
    w >= 0 && (rows == [] || NeverBelow(w + Change(rows[0]), rows[1..]))
  }

  /** Only the first of these rows may stand for more than one subscription. */
  predicate MergedFirst(rows: seq<Row>) {
    forall j :: 0 < j < |rows| && rows[j].kind == 1 ==> rows[j].num == 0
  }

  /** A key's rows before its first subscribe, which find nothing to take. */
  function Lead(rows: seq<Row>): seq<Row> {
    if rows == [] || rows[0].kind == 1 then [] else [rows[0]] + Lead(rows[1..])
  }

  /** The rows from the first subscribe on. */
  function Main(rows: seq<Row>): seq<Row> {
    if rows == [] || rows[0].kind == 1 then rows else Main(rows[1..])
  }

  /** From its first subscribe on a key's count never falls below zero. */
  predicate InOrder(rows: seq<Row>) {
    NeverBelow(0, Main(rows))
  }

  predicate Ordered(rows: seq<Row>) {
    forall i, j :: 0 <= i < j < |rows| ==> rows[i].id < rows[j].id
  }

  /** What every table keeps: ids grow, and of a key's rows only the first subscribe may
      stand for several. */
  ghost predicate LogOk(rows: seq<Row>) {
    Ordered(rows) && forall k :: MergedFirst(Main(KeyRows(rows, k)))
  }

  /** A replay yields the net count exactly if the count never falls below zero, and
      otherwise more. */
  lemma {:induction false} ReplayIsNet(w: nat, rows: seq<Row>)
    ensures Replay(w, rows) >= w + Net(rows)
    ensures Replay(w, rows) == w + Net(rows) <==> NeverBelow(w, rows)
    decreases |rows|
  {
    if rows != [] {
      ReplayIsNet(Next(w, rows[0]), rows[1..]);
      if w + Change(rows[0]) < 0 {
        assert !NeverBelow(w + Change(rows[0]), rows[1..]);
      }
    }
  }

  /** More to start with never yields less. */
  lemma {:induction false} ReplayGrows(v: nat, w: nat, rows: seq<Row>)
    requires v <= w
    ensures Replay(v, rows) <= Replay(w, rows)
    decreases |rows|
  {
    if rows != [] { ReplayGrows(Next(v, rows[0]), Next(w, rows[0]), rows[1..]); }
  }

  lemma {:induction false} LeadSplit(rows: seq<Row>)
    ensures Lead(rows) + Main(rows) == rows
    ensures forall r <- Lead(rows) :: r.kind != 1
    ensures Main(rows) != [] ==> Main(rows)[0].kind == 1
    ensures Replay(0, rows) == Replay(0, Main(rows))
  {
    if rows != [] && rows[0].kind != 1 { LeadSplit(rows[1..]); }
  }

  lemma {:induction false} LeadJoin(a: seq<Row>, b: seq<Row>)
    ensures Main(a + b) == if Main(a) != [] then Main(a) + b else Main(b)
    ensures Lead(a + b) == if Main(a) != [] then Lead(a) else Lead(a) + Lead(b)
  {
    if a == [] {
      assert a + b == b;
    } else {
      assert (a + b)[1..] == a[1..] + b;
      if a[0].kind != 1 { LeadJoin(a[1..], b); }
    }
  }

  /** Rows without a subscribe in front. */
  lemma LeadFirst(lead: seq<Row>, b: seq<Row>)
    requires forall r <- lead :: r.kind != 1
    ensures Main(lead) == [] && Lead(lead) == lead
    ensures Main(lead + b) == Main(b) && Lead(lead + b) == lead + Lead(b)
  {
    LeadSplit(lead);
    assert Main(lead) != [] ==> Main(lead)[0] in lead by { assert lead == Lead(lead) + Main(lead); }
    assert Lead(lead) + [] == Lead(lead);
    LeadJoin(lead, b);
  }

  lemma {:induction false} ReplayJoin(w: nat, a: seq<Row>, b: seq<Row>)
    ensures Replay(w, a + b) == Replay(Replay(w, a), b)
    decreases |a|
  {
    if a == [] {
      assert a + b == b;
    } else {
      assert (a + b)[1..] == a[1..] + b;
      ReplayJoin(Next(w, a[0]), a[1..], b);
    }
  }

  lemma {:induction false} NetJoin(a: seq<Row>, b: seq<Row>)
    ensures Net(a + b) == Net(a) + Net(b)
  {
    if a == [] {
      assert a + b == b;
    } else {
      assert (a + b)[1..] == a[1..] + b;
      NetJoin(a[1..], b);
    }
  }

  lemma {:induction false} BelowJoin(w: int, a: seq<Row>, b: seq<Row>)
    ensures NeverBelow(w, a + b) <==> NeverBelow(w, a) && NeverBelow(w + Net(a), b)
    decreases |a|
  {
    if a == [] {
      assert a + b == b;
    } else {
      assert (a + b)[1..] == a[1..] + b;
      BelowJoin(w + Change(a[0]), a[1..], b);
    }
  }

  lemma {:induction false} KeyRowsJoin(a: seq<Row>, b: seq<Row>, k: Key)
    ensures KeyRows(a + b, k) == KeyRows(a, k) + KeyRows(b, k)
  {
    if a == [] {
      assert a + b == b;
    } else {
      assert (a + b)[1..] == a[1..] + b;
      KeyRowsJoin(a[1..], b, k);
    }
  }

  lemma {:induction false} KeyRowsKinds(rows: seq<Row>, k: Key)
    ensures forall i :: 0 <= i < |KeyRows(rows, k)| ==>
      KeyOf(KeyRows(rows, k)[i]) == k && KeyRows(rows, k)[i].kind in {1, 2}
    ensures forall i :: 0 <= i < |KeyRows(rows, k)| ==> KeyRows(rows, k)[i] in rows
  {
    if rows != [] { KeyRowsKinds(rows[1..], k); }
  }

  /** What a merge leaves of a key's rows from its first subscribe on: that row carrying the
      count, nothing when they cancel, all of them when the count is below zero. */
  function Merged(a: seq<Row>): seq<Row> {
    if a == [] || Net(a) < 0 then a
    else if Net(a) == 0 then []
    else [a[0].(num := Net(a) - 1)]
  }

  /** What it leaves of all of them. */
  function MergedRows(rows: seq<Row>): seq<Row> {
    Lead(rows) + Merged(Main(rows))
  }

  /** Where merging changes no replay. */
  predicate Mergeable(rows: seq<Row>) {
    InOrder(rows) || Net(Main(rows)) < 0
  }

  lemma MergedNet(a: seq<Row>)
    requires a != [] && a[0].kind == 1
    ensures Net(Merged(a)) == Net(a)
    ensures Net(a) >= 0 ==> NeverBelow(0, Merged(a)) && Replay(0, Merged(a)) == Net(a)
  {
    if Net(a) > 0 {
      var m := Merged(a);
      assert m[1..] == [];
      ReplayIsNet(0, m);
    }
  }

  /** Merging the first rows of a key changes no replay, whatever follows them, exactly if
      from the first subscribe on the count never falls below zero or ends below it. It
      never makes a replay yield more. */
  lemma MergeKeepsReplay(a: seq<Row>)
    ensures (forall b :: Replay(0, MergedRows(a) + b) == Replay(0, a + b)) <==> Mergeable(a)
    ensures Replay(0, MergedRows(a)) == Replay(0, a) <==> Mergeable(a)
    ensures Replay(0, MergedRows(a)) <= Replay(0, a)
  {
    MergedOnce(a);
    forall b ensures Replay(0, MergedRows(a) + b) == Replay(Replay(0, MergedRows(a)), b)
      ensures Replay(0, a + b) == Replay(Replay(0, a), b)
    {
      ReplayJoin(0, MergedRows(a), b);
      ReplayJoin(0, a, b);
    }
    if forall b :: Replay(0, MergedRows(a) + b) == Replay(0, a + b) {
      assert MergedRows(a) + [] == MergedRows(a) && a + [] == a;
      assert Replay(0, MergedRows(a) + []) == Replay(0, a + []);
    }
  }

  lemma MergedOnce(a: seq<Row>)
    ensures Replay(0, MergedRows(a)) == Replay(0, a) <==> Mergeable(a)
    ensures Replay(0, MergedRows(a)) <= Replay(0, a)
  {
    LeadSplit(a);
    LeadFirst(Lead(a), Merged(Main(a)));
    LeadSplit(MergedRows(a));
    if Main(a) != [] {
      MergedNet(Main(a));
      MergedStarts(Main(a));
      ReplayIsNet(0, Main(a));
    }
  }

  lemma MergedStarts(a: seq<Row>)
    requires a != [] && a[0].kind == 1
    ensures Main(Merged(a)) == Merged(a) && Lead(Merged(a)) == []
  {
  }

  /** The rows a key has left after a merge, and what follows: the number stays at the first
      subscribe, and what was in order is, with the same count. */
  lemma MergedThen(a: seq<Row>, b: seq<Row>)
    requires Main(a) != []
    ensures Main(a + b) == Main(a) + b && Lead(a + b) == Lead(a)
    ensures MergedFirst(Main(a + b)) ==> MergedFirst(Main(MergedRows(a) + b))
    ensures InOrder(a + b) && (forall r <- b :: r.kind in {1, 2}) ==>
      && InOrder(MergedRows(a) + b) && Lead(MergedRows(a) + b) == Lead(a + b)
      && Net(Main(MergedRows(a) + b)) == Net(Main(a + b))
  {
    LeadSplit(a);
    LeadJoin(a, b);
    MergedBehind(Lead(a), Main(a), b);
    hide Main, Lead, Merged, MergedFirst;
    if MergedFirst(Main(a + b)) {
      MergedFirstThen(Main(a), b);
    }
    if InOrder(a + b) && forall r <- b :: r.kind in {1, 2} {
      MergedInOrder(Main(a), b);
      assert Lead(a) + [] == Lead(a);
    }
  }

  lemma MergedBehind(lead: seq<Row>, m: seq<Row>, b: seq<Row>)
    requires m != [] && m[0].kind == 1 && forall r <- lead :: r.kind != 1
    ensures Main(lead + Merged(m) + b) == (if Merged(m) == [] then Main(b) else Merged(m) + b)
    ensures Lead(lead + Merged(m) + b) == lead + if Merged(m) == [] then Lead(b) else []
  {
    MergedStarts(m);
    hide Lead, Main, Merged;
    LeadBehind(lead, Merged(m), b);
  }

  lemma LeadBehind(lead: seq<Row>, x: seq<Row>, b: seq<Row>)
    requires (forall r <- lead :: r.kind != 1) && Main(x) == x && Lead(x) == []
    ensures Main(lead + x + b) == (if x == [] then Main(b) else x + b)
    ensures Lead(lead + x + b) == lead + if x == [] then Lead(b) else []
  {
    hide Lead, Main;
    LeadFirst(lead, x + b);
    LeadJoin(x, b);
    Regroup(lead, x, b);
    assert [] + Lead(b) == Lead(b);
  }

  lemma Regroup(a: seq<Row>, b: seq<Row>, c: seq<Row>)
    ensures a + b + c == a + (b + c)
  {
  }

  lemma MergedInOrder(m: seq<Row>, b: seq<Row>)
    requires m != [] && m[0].kind == 1 && NeverBelow(0, m + b) && forall r <- b :: r.kind in {1, 2}
    ensures NeverBelow(0, Merged(m) + b) && Net(Merged(m) + b) == Net(m + b)
    ensures Merged(m) == [] ==> NeverBelow(0, b) && Net(b) == Net(m + b) && Main(b) == b && Lead(b) == []
  {
    BelowJoin(0, m, b);
    BelowAtEnd(0, m);
    MergedNet(m);
    BelowJoin(0, Merged(m), b);
    NetJoin(m, b);
    NetJoin(Merged(m), b);
    if Merged(m) == [] {
      assert [] + b == b;
      NoLead(b);
    }
  }

  lemma MergedFirstThen(m: seq<Row>, b: seq<Row>)
    requires m != [] && MergedFirst(m + b)
    ensures MergedFirst(Merged(m) + b) && MergedFirst(Main(b))
  {
    forall j | 0 <= j < |b| && b[j].kind == 1 ensures b[j].num == 0 { assert (m + b)[|m| + j] == b[j]; }
    assert forall r <- b :: r.kind == 1 ==> r.num == 0;
    LeadSplit(b);
    forall j | 0 <= j < |Main(b)| ensures Main(b)[j] in b { assert (Lead(b) + Main(b))[|Lead(b)| + j] == Main(b)[j]; }
    if Net(m) >= 0 {
      assert forall j :: 0 < j < |Merged(m) + b| ==> (Merged(m) + b)[j] in b;
    }
  }

  /** What counts from zero without falling below begins with a subscribe. */
  lemma NoLead(b: seq<Row>)
    requires NeverBelow(0, b) && forall r <- b :: r.kind in {1, 2}
    ensures Main(b) == b && Lead(b) == []
  {
    assert b != [] ==> NeverBelow(Change(b[0]), b[1..]);
  }

  lemma {:induction false} BelowAtEnd(w: int, rows: seq<Row>)
    requires NeverBelow(w, rows)
    ensures w + Net(rows) >= 0
    decreases |rows|
  {
    if rows != [] { BelowAtEnd(w + Change(rows[0]), rows[1..]); }
  }

  // ---------- the statements of a merge ----------

  function Edit(r: Row, id: nat, num: nat, del: set<nat>): seq<Row> {
    if r.id in del then [] else if r.id == id then [r.(num := num)] else [r]
  }

  /** DelSome: the number of one row set, the rows of some ids deleted. */
  function UpdateDelete(rows: seq<Row>, id: nat, num: nat, del: set<nat>): seq<Row> {
    if rows == [] then [] else Edit(rows[0], id, num, del) + UpdateDelete(rows[1..], id, num, del)
  }

  function IdsOf(rows: seq<Row>): set<nat> {
    set i | 0 <= i < |rows| :: rows[i].id
  }

  /** The rows with ids up to a bound. */
  function Upto(rows: seq<Row>, cut: nat): seq<Row> {
    if rows == [] then [] else (if rows[0].id <= cut then [rows[0]] else []) + Upto(rows[1..], cut)
  }

  function Beyond(rows: seq<Row>, cut: nat): seq<Row> {
    if rows == [] then [] else (if rows[0].id > cut then [rows[0]] else []) + Beyond(rows[1..], cut)
  }

  lemma {:induction false} UptoMembers(rows: seq<Row>, cut: nat)
    ensures forall r <- Upto(rows, cut) :: r in rows && r.id <= cut
  {
    if rows != [] { UptoMembers(rows[1..], cut); }
  }

  lemma {:induction false} BeyondMembers(rows: seq<Row>, cut: nat)
    ensures forall r <- Beyond(rows, cut) :: r in rows && r.id > cut
  {
    if rows != [] { BeyondMembers(rows[1..], cut); }
  }

  lemma {:induction false} UptoAll(rows: seq<Row>, cut: nat)
    requires forall r <- rows :: r.id <= cut
    ensures Upto(rows, cut) == rows
  {
    if rows != [] { UptoAll(rows[1..], cut); }
  }

  lemma {:induction false} UptoNone(rows: seq<Row>, cut: nat)
    requires forall r <- rows :: r.id > cut
    ensures Upto(rows, cut) == []
  {
    if rows != [] { UptoNone(rows[1..], cut); }
  }

  lemma {:induction false} BeyondAll(rows: seq<Row>, cut: nat)
    requires forall r <- rows :: r.id > cut
    ensures Beyond(rows, cut) == rows
  {
    if rows != [] { BeyondAll(rows[1..], cut); }
  }

  lemma {:induction false} Rejoined(rows: seq<Row>, cut: nat)
    requires Ordered(rows)
    ensures Upto(rows, cut) + Beyond(rows, cut) == rows
  {
    if rows != [] {
      if rows[0].id > cut {
        UptoNone(rows, cut);
        BeyondAll(rows, cut);
      } else {
        Rejoined(rows[1..], cut);
        var head, tail := Upto(rows[1..], cut), Beyond(rows[1..], cut);
        assert Upto(rows, cut) == [rows[0]] + head && Beyond(rows, cut) == [] + tail;
        hide Upto, Beyond;
        assert [rows[0]] + head + tail == [rows[0]] + (head + tail);
      }
    }
  }

  lemma SplitAt(rows: seq<Row>, cut: nat)
    requires Ordered(rows)
    ensures Upto(rows, cut) + Beyond(rows, cut) == rows
    ensures forall r <- Upto(rows, cut) :: r in rows && r.id <= cut
    ensures forall r <- Beyond(rows, cut) :: r in rows && r.id > cut
  {
    Rejoined(rows, cut);
    UptoMembers(rows, cut);
    BeyondMembers(rows, cut);
  }

  lemma {:induction false} UpdateDeleteJoin(a: seq<Row>, b: seq<Row>, id: nat, num: nat, del: set<nat>)
    ensures UpdateDelete(a + b, id, num, del) == UpdateDelete(a, id, num, del) + UpdateDelete(b, id, num, del)
  {
    if a == [] {
      assert a + b == b;
    } else {
      assert (a + b)[1..] == a[1..] + b;
      UpdateDeleteJoin(a[1..], b, id, num, del);
    }
  }

  lemma {:induction false} Untouched(rows: seq<Row>, id: nat, num: nat, del: set<nat>)
    requires forall r <- rows :: r.id != id && r.id !in del
    ensures UpdateDelete(rows, id, num, del) == rows
  {
    if rows != [] { Untouched(rows[1..], id, num, del); }
  }

  /** A key none of whose rows is named keeps its rows. */
  lemma {:induction false} OtherKeys(rows: seq<Row>, id: nat, num: nat, del: set<nat>, k: Key)
    requires forall r <- rows :: KeyOf(r) == k ==> r.id != id && r.id !in del
    ensures KeyRows(UpdateDelete(rows, id, num, del), k) == KeyRows(rows, k)
  {
    if rows != [] {
      OtherKeys(rows[1..], id, num, del, k);
      KeyRowsJoin(Edit(rows[0], id, num, del), UpdateDelete(rows[1..], id, num, del), k);
      OneRow(rows[0], id, num, del, k);
    }
  }

  /** What the statements leave of the merged key's own rows. */
  lemma {:induction false} OwnKey(rows: seq<Row>, id: nat, num: nat, del: set<nat>, k: Key)
    ensures KeyRows(UpdateDelete(rows, id, num, del), k) == UpdateDelete(KeyRows(rows, k), id, num, del)
  {
    if rows != [] {
      OwnKey(rows[1..], id, num, del, k);
      var r, rest, own := rows[0], UpdateDelete(rows[1..], id, num, del), KeyRows(rows[1..], k);
      var one := Edit(r, id, num, del);
      KeyRowsJoin(one, rest, k);
      UpdateDeleteJoin([r], own, id, num, del);
      OneRow(r, id, num, del, k);
      assert [] + own == own;
    }
  }

  lemma OneRow(r: Row, id: nat, num: nat, del: set<nat>, k: Key)
    ensures UpdateDelete([r], id, num, del) == Edit(r, id, num, del)
    ensures KeyRows(Edit(r, id, num, del), k) ==
      if KeyOf(r) == k && r.kind in {1, 2} then Edit(r, id, num, del) else []
  {
  }

  lemma {:induction false} KeepsOrder(rows: seq<Row>, id: nat, num: nat, del: set<nat>)
    requires Ordered(rows)
    ensures Ordered(UpdateDelete(rows, id, num, del))
    ensures forall r <- UpdateDelete(rows, id, num, del) :: exists q <- rows :: q.id == r.id
  {
    if rows != [] {
      KeepsOrder(rows[1..], id, num, del);
    }
  }

  lemma {:induction false} KeyRowsOrdered(rows: seq<Row>, k: Key)
    requires Ordered(rows)
    ensures Ordered(KeyRows(rows, k))
  {
    if rows != [] {
      KeyRowsOrdered(rows[1..], k);
      KeyRowsKinds(rows[1..], k);
    }
  }

  lemma {:induction false} DeleteAll(rows: seq<Row>, id: nat, num: nat, del: set<nat>)
    requires forall r <- rows :: r.id in del
    ensures UpdateDelete(rows, id, num, del) == []
  {
    if rows != [] { DeleteAll(rows[1..], id, num, del); }
  }

  /** The two statements on the merged rows themselves. */
  lemma OnMerged(a: seq<Row>)
    requires Ordered(a) && a != [] && Net(a) >= 0
    ensures UpdateDelete(a, a[0].id, MergeNum(a), MergeDel(a)) == Merged(a)
  {
    if Net(a) == 0 {
      DeleteAll(a, a[0].id, 0, IdsOf(a));
    } else {
      assert a[0].id !in IdsOf(a[1..]);
      DeleteAll(a[1..], a[0].id, Net(a) - 1, IdsOf(a[1..]));
      hide IdsOf, Net;
    }
  }

  /** The ids a merge of key k up to `cut` deletes and the number it writes, as the merge
      loop hands them over. */
  function MergeDel(a: seq<Row>): set<nat>
    requires a != []
  {
    if Net(a) == 0 then IdsOf(a) else IdsOf(a[1..])
  }

  function MergeNum(a: seq<Row>): nat {
    if Net(a) > 0 then Net(a) - 1 else 0
  }

  /** The table after the merge of the rows `a`: as it was when their count is below zero. */
  function AfterMerge(rows: seq<Row>, a: seq<Row>): seq<Row>
    requires a != []
  {
    if Net(a) < 0 then rows else UpdateDelete(rows, a[0].id, MergeNum(a), MergeDel(a))
  }

  /** The rows that a merge of key k looks at. */
  function Looked(rows: seq<Row>, cut: nat, k: Key): seq<Row> {
    KeyRows(Upto(rows, cut), k)
  }

  /** One merge, whatever was appended behind it: of the rows looked at the key is left with
      what MergedRows says, the rows behind and the rows of all other keys stay, and so does
      what every table keeps. */
  lemma MergeRows(rows: seq<Row>, cut: nat, k: Key)
    requires LogOk(rows) && Main(Looked(rows, cut, k)) != []
    ensures var a := Looked(rows, cut, k); var rows' := AfterMerge(rows, Main(a));
      && LogOk(rows')
      && Looked(rows', cut, k) == MergedRows(a)
      && KeyRows(rows', k) == MergedRows(a) + KeyRows(Beyond(rows, cut), k)
      && (forall key :: key != k ==> KeyRows(rows', key) == KeyRows(rows, key))
      && (forall key :: key != k ==> Looked(rows', cut, key) == Looked(rows, cut, key))
      && Beyond(rows', cut) == Beyond(rows, cut)
      && (forall r <- rows' :: exists q <- rows :: q.id == r.id)
  {
    hide Upto, KeyRows, UpdateDelete, Net, MergeDel, MergeNum, Beyond, MergedFirst, MergedRows, Lead, Main, Ordered;
    var a := Looked(rows, cut, k);
    var rows' := AfterMerge(rows, Main(a));
    MergedKey(rows, cut, k);
    BeyondStays(rows, cut, k);
    OrderStays(rows, cut, k);
    forall key | key != k
      ensures KeyRows(rows', key) == KeyRows(rows, key) && Looked(rows', cut, key) == Looked(rows, cut, key)
    {
      OtherKey(rows, cut, k, key);
    }
  }

  lemma OrderStays(rows: seq<Row>, cut: nat, k: Key)
    requires LogOk(rows) && Main(Looked(rows, cut, k)) != []
    ensures var rows' := AfterMerge(rows, Main(Looked(rows, cut, k)));
      Ordered(rows') && forall r <- rows' :: exists q <- rows :: q.id == r.id
  {
    var m := Main(Looked(rows, cut, k));
    KeepsOrder(rows, m[0].id, MergeNum(m), MergeDel(m));
  }

  /** Exactly the merges of mergeable rows keep the key's weight, as far as the rows looked
      at go and whatever follows them; a merge never raises it, and every other key keeps
      its own. */
  lemma MergeKeepsWeights(rows: seq<Row>, cut: nat, k: Key)
    requires LogOk(rows) && Main(Looked(rows, cut, k)) != []
    ensures var a := Looked(rows, cut, k); var rows' := AfterMerge(rows, Main(a));
      && (Replay(0, Looked(rows', cut, k)) == Replay(0, a) <==> Mergeable(a))
      && (Mergeable(a) ==> Weight(rows', k) == Weight(rows, k))
      && Weight(rows', k) <= Weight(rows, k)
      && forall key :: key != k ==> Weight(rows', key) == Weight(rows, key)
  {
    hide Upto, KeyRows, UpdateDelete, Replay, AfterMerge, Net, MergedRows, Beyond, Mergeable, LogOk, Main;
    var a, b := Looked(rows, cut, k), KeyRows(Beyond(rows, cut), k);
    OkIsOrdered(rows);
    KeyParts(rows, cut, k);
    MergeRows(rows, cut, k);
    MergeKeepsReplay(a);
    ReplayJoin(0, a, b);
    ReplayJoin(0, MergedRows(a), b);
    ReplayGrows(Replay(0, MergedRows(a)), Replay(0, a), b);
  }

  lemma OkIsOrdered(rows: seq<Row>)
    requires LogOk(rows)
    ensures Ordered(rows)
  {
  }

  lemma MergedKey(rows: seq<Row>, cut: nat, k: Key)
    requires LogOk(rows) && Main(Looked(rows, cut, k)) != []
    ensures var a := Looked(rows, cut, k); var rows' := AfterMerge(rows, Main(a));
      && KeyRows(rows', k) == MergedRows(a) + KeyRows(Beyond(rows, cut), k)
      && MergedFirst(Main(KeyRows(rows', k))) && Looked(rows', cut, k) == MergedRows(a)
  {
    var a, b := Looked(rows, cut, k), KeyRows(Beyond(rows, cut), k);
    var lead, m := Lead(a), Main(a);
    hide Upto, KeyRows, UpdateDelete, Net, MergeDel, MergeNum, Beyond, MergedFirst, Lead, Main;
    KeyParts(rows, cut, k);
    LeadSplit(a);
    MergedThen(a, b);
    OrderedParts(lead, m);
    OnLooked(lead, m, b, cut);
    OnLooked(lead, m, [], cut);
    assert a + [] == a && lead + Merged(m) + [] == lead + Merged(m);
    OwnKey(rows, m[0].id, MergeNum(m), MergeDel(m), k);
    UptoCommutes(rows, cut, m[0].id, MergeNum(m), MergeDel(m));
    OwnKey(Upto(rows, cut), m[0].id, MergeNum(m), MergeDel(m), k);
  }

  lemma OrderedParts(a: seq<Row>, b: seq<Row>)
    requires Ordered(a + b)
    ensures Ordered(b) && forall r <- a, q <- b :: r.id < q.id
  {
    forall i, j | 0 <= i < |a| && 0 <= j < |b| ensures a[i].id < b[j].id {
      assert (a + b)[i] == a[i] && (a + b)[|a| + j] == b[j];
    }
    forall i, j | 0 <= i < j < |b| ensures b[i].id < b[j].id {
      assert (a + b)[|a| + i] == b[i] && (a + b)[|a| + j] == b[j];
    }
  }

  /** The statements on the key's rows: those before the first subscribe and those behind the
      bound are not named. */
  lemma OnLooked(lead: seq<Row>, m: seq<Row>, b: seq<Row>, cut: nat)
    requires Ordered(m) && m != [] && forall r <- lead, q <- m :: r.id < q.id
    requires (forall r <- m :: r.id <= cut) && (forall r <- b :: r.id > cut)
    ensures Net(m) >= 0 ==>
      UpdateDelete(lead + m + b, m[0].id, MergeNum(m), MergeDel(m)) == lead + Merged(m) + b
  {
    if Net(m) >= 0 {
      OnMerged(m);
      var id, num, del := m[0].id, MergeNum(m), MergeDel(m);
      assert forall r <- lead :: r.id != id && r.id !in del;
      UpdateDeleteJoin(lead + m, b, id, num, del);
      UpdateDeleteJoin(lead, m, id, num, del);
      Untouched(lead, id, num, del);
      Untouched(b, id, num, del);
    }
  }

  lemma BeyondStays(rows: seq<Row>, cut: nat, k: Key)
    requires Ordered(rows) && Main(Looked(rows, cut, k)) != []
    ensures Beyond(AfterMerge(rows, Main(Looked(rows, cut, k))), cut) == Beyond(rows, cut)
  {
    var a := Looked(rows, cut, k);
    var m := Main(a);
    MainWithin(a);
    KeyParts(rows, cut, k);
    hide KeyRows, Upto, Main, Beyond, UpdateDelete, Ordered;
    BeyondUntouched(rows, cut, m[0].id, MergeNum(m), MergeDel(m));
  }

  lemma {:induction false} BeyondUntouched(rows: seq<Row>, cut: nat, id: nat, num: nat, del: set<nat>)
    requires id <= cut && forall x <- del :: x <= cut
    ensures Beyond(UpdateDelete(rows, id, num, del), cut) == Beyond(rows, cut)
  {
    if rows != [] {
      BeyondUntouched(rows[1..], cut, id, num, del);
      var r, rest := rows[0], UpdateDelete(rows[1..], id, num, del);
      var one := Edit(r, id, num, del);
      if one == [] {
        assert one + rest == rest;
      } else {
        assert one + rest == [one[0]] + rest && ([one[0]] + rest)[1..] == rest;
      }
    }
  }

  /** A key's rows up to a bound and beyond it. */
  lemma KeyParts(rows: seq<Row>, cut: nat, k: Key)
    requires Ordered(rows)
    ensures var a, b := KeyRows(Upto(rows, cut), k), KeyRows(Beyond(rows, cut), k);
      && KeyRows(rows, k) == a + b && Ordered(a)
      && (forall r <- a :: KeyOf(r) == k && r.kind in {1, 2} && r in rows && r.id <= cut)
      && (forall r <- b :: r.id > cut)
  {
    var head, tail := Upto(rows, cut), Beyond(rows, cut);
    SplitAt(rows, cut);
    KeyRowsJoin(head, tail, k);
    KeyRowsKinds(head, k);
    KeyRowsKinds(tail, k);
    KeyRowsOrdered(rows, k);
    var a := KeyRows(head, k);
    assert forall i :: 0 <= i < |a| ==> KeyRows(rows, k)[i] == a[i];
  }

  lemma OtherKey(rows: seq<Row>, cut: nat, k: Key, key: Key)
    requires Ordered(rows) && Main(Looked(rows, cut, k)) != [] && key != k
    ensures var rows' := AfterMerge(rows, Main(Looked(rows, cut, k)));
      KeyRows(rows', key) == KeyRows(rows, key) && Looked(rows', cut, key) == Looked(rows, cut, key)
  {
    var a := Looked(rows, cut, k);
    var m := Main(a);
    SplitAt(rows, cut);
    KeyRowsKinds(Upto(rows, cut), k);
    MainWithin(a);
    hide Main, KeyRows, Upto, UpdateDelete, MergeDel, MergeNum;
    assert forall i :: 0 <= i < |m| ==> m[i] in a;
    OthersUnnamed(rows, m, key, k);
    OtherKeys(rows, m[0].id, MergeNum(m), MergeDel(m), key);
    UptoCommutes(rows, cut, m[0].id, MergeNum(m), MergeDel(m));
    OtherKeys(Upto(rows, cut), m[0].id, MergeNum(m), MergeDel(m), key);
  }

  lemma OthersUnnamed(rows: seq<Row>, a: seq<Row>, key: Key, k: Key)
    requires Ordered(rows) && key != k && a != []
    requires forall i :: 0 <= i < |a| ==> KeyOf(a[i]) == k && a[i] in rows
    ensures forall r <- rows :: KeyOf(r) == key ==> r.id != a[0].id && r.id !in MergeDel(a)
  {
  }

  lemma {:induction false} UptoCommutes(rows: seq<Row>, cut: nat, id: nat, num: nat, del: set<nat>)
    ensures Upto(UpdateDelete(rows, id, num, del), cut) == UpdateDelete(Upto(rows, cut), id, num, del)
  {
    if rows != [] {
      UptoCommutes(rows[1..], cut, id, num, del);
      var r, rest := rows[0], UpdateDelete(rows[1..], id, num, del);
      var one := Edit(r, id, num, del);
      UptoJoin(one, rest, cut);
      OneRow(r, id, num, del, KeyOf(r));
      UpdateDeleteJoin([r], Upto(rows[1..], cut), id, num, del);
      if one != [] {
        assert one[1..] == [] && Upto(one[1..], cut) == [];
      }
      assert [] + Upto(rows[1..], cut) == Upto(rows[1..], cut);
    }
  }

  lemma {:induction false} UptoJoin(a: seq<Row>, b: seq<Row>, cut: nat)
    ensures Upto(a + b, cut) == Upto(a, cut) + Upto(b, cut)
  {
    if a == [] {
      assert a + b == b;
    } else {
      assert (a + b)[1..] == a[1..] + b;
      UptoJoin(a[1..], b, cut);
      var one := if a[0].id <= cut then [a[0]] else [];
      UptoStep(a, cut);
      UptoStep(a + b, cut);
      hide Upto;
      assert one + (Upto(a[1..], cut) + Upto(b, cut)) == one + Upto(a[1..], cut) + Upto(b, cut);
    }
  }

  lemma UptoStep(rows: seq<Row>, cut: nat)
    requires rows != []
    ensures Upto(rows, cut) == (if rows[0].id <= cut then [rows[0]] else []) + Upto(rows[1..], cut)
  {
  }

  /** Appending an event of any kind behind everything. */
  lemma AppendKeeps(rows: seq<Row>, r: Row)
    requires LogOk(rows) && r.num == 0 && forall q <- rows :: q.id < r.id
    ensures LogOk(rows + [r])
    ensures forall k ::
      Weight(rows + [r], k) == (if k == KeyOf(r) && r.kind in {1, 2} then Next(Weight(rows, k), r) else Weight(rows, k))
  {
    forall k
      ensures MergedFirst(Main(KeyRows(rows + [r], k)))
      ensures Weight(rows + [r], k) ==
        (if k == KeyOf(r) && r.kind in {1, 2} then Next(Weight(rows, k), r) else Weight(rows, k))
    {
      KeyRowsSnoc(rows, r, k);
      var own, one := KeyRows(rows, k), if KeyOf(r) == k && r.kind in {1, 2} then [r] else [];
      LeadJoin(own, one);
      ReplayJoin(0, own, one);
      hide KeyRows, Lead;
      assert one != [] ==> one[1..] == [];
      assert own + [] == own;
    }
  }

  lemma KeyRowsSnoc(rows: seq<Row>, r: Row, k: Key)
    ensures KeyRows(rows + [r], k) == KeyRows(rows, k) + if KeyOf(r) == k && r.kind in {1, 2} then [r] else []
  {
    KeyRowsJoin(rows, [r], k);
    assert [r][1..] == [];
  }

  // ---------- the table and its history ----------

  /** A key's rows in the table against all its events, when those are in order: the same
      count, and the same unsubscribes in front. */
  predicate Tracks(rows: seq<Row>, events: seq<Row>) {
    InOrder(events) ==>
      && InOrder(rows) && Lead(rows) == Lead(events) && Net(Main(rows)) == Net(Main(events))
      && (Main(events) == [] ==> Main(rows) == [])
  }

  lemma TracksAppend(rows: seq<Row>, events: seq<Row>, r: Row)
    requires Tracks(rows, events) && r.kind in {1, 2}
    ensures Tracks(rows + [r], events + [r])
  {
    var one := [r];
    assert one[1..] == [] && Main(one) == (if r.kind == 1 then one else []) && Net(one) == Change(r);
    assert Lead(one) == if r.kind == 1 then [] else one;
    LeadJoin(rows, one);
    LeadJoin(events, one);
    BelowJoin(0, Main(events), one);
    BelowJoin(0, Main(rows), one);
    NetJoin(Main(events), one);
    NetJoin(Main(rows), one);
    assert Main(events) != [] && InOrder(events) ==> Net(Main(events)) >= 0 by {
      if InOrder(events) { BelowAtEnd(0, Main(events)); }
    }
    assert Lead(rows) + [] == Lead(rows) && Lead(events) + [] == Lead(events);
    assert [] + one == one;
    hide Lead, Main, Net;
  }

  /** A merge keeps the rows of its key in step with the key's events. */
  lemma TracksMerge(a: seq<Row>, b: seq<Row>, events: seq<Row>)
    requires Tracks(a + b, events) && Main(a) != [] && forall r <- b :: r.kind in {1, 2}
    ensures Tracks(MergedRows(a) + b, events)
  {
    MergedThen(a, b);
    LeadJoin(a, b);
  }

  /** In step means the same weight. */
  lemma TracksWeight(rows: seq<Row>, events: seq<Row>)
    requires Tracks(rows, events) && InOrder(events)
    ensures Replay(0, rows) == Replay(0, events)
  {
    LeadSplit(rows);
    LeadSplit(events);
    ReplayIsNet(0, Main(rows));
    ReplayIsNet(0, Main(events));
  }

  // ---------- a log out of order ----------

  /** A client unsubscribes once too often and subscribes again. */
  const SURPLUS: seq<Row> :=
    [Row(1, 1, "node", "t", 0), Row(2, 2, "node", "t", 0), Row(3, 2, "node", "t", 0), Row(4, 1, "node", "t", 0)]

  /** Its four rows cancel in the count and are deleted, though their replay leaves it
      subscribed. */
  lemma SurplusLoses()
    ensures LogOk(SURPLUS) && Looked(SURPLUS, 4, ("node", "t")) == SURPLUS && Net(SURPLUS) == 0
    ensures Weight(SURPLUS, ("node", "t")) == 1 && !Mergeable(SURPLUS)
    ensures AfterMerge(SURPLUS, Main(SURPLUS)) == [] && Weight([], ("node", "t")) == 0
  {
    KeyRowsAll(SURPLUS, ("node", "t"));
    UptoAll(SURPLUS, 4);
    SurplusCounts();
    SurplusOk();
    DeleteAll(SURPLUS, 1, 0, IdsOf(SURPLUS));
    hide Net, Replay, UpdateDelete, KeyRows, Upto, IdsOf, LogOk;
    assert Main(SURPLUS) == SURPLUS;
  }

  lemma SurplusOk()
    ensures LogOk(SURPLUS)
  {
    forall key ensures MergedFirst(Main(KeyRows(SURPLUS, key))) {
      KeyRowsKinds(SURPLUS, key);
      MainWithin(KeyRows(SURPLUS, key));
      hide Main, KeyRows;
    }
  }

  lemma SurplusCounts()
    ensures Net(SURPLUS) == 0 && Replay(0, SURPLUS) == 1
  {
    var r2, r3, r4 := SURPLUS[1], SURPLUS[2], SURPLUS[3];
    assert SURPLUS[1..] == [r2, r3, r4] && [r2, r3, r4][1..] == [r3, r4] && [r3, r4][1..] == [r4] && [r4][1..] == [];
    assert Net([r4]) == 1 && Net([r3, r4]) == 0 && Net([r2, r3, r4]) == -1;
    assert Replay(0, [r4]) == 1 && Replay(0, [r3, r4]) == 1 && Replay(1, [r2, r3, r4]) == 1;
  }

  lemma MainWithin(rows: seq<Row>)
    ensures forall r <- Main(rows) :: r in rows
  {
    LeadSplit(rows);
    forall j | 0 <= j < |Main(rows)| ensures Main(rows)[j] in rows {
      assert (Lead(rows) + Main(rows))[|Lead(rows)| + j] == Main(rows)[j];
    }
  }

  lemma {:induction false} KeyRowsAll(rows: seq<Row>, k: Key)
    requires forall r <- rows :: KeyOf(r) == k && r.kind in {1, 2}
    ensures KeyRows(rows, k) == rows
  {
    if rows != [] { KeyRowsAll(rows[1..], k); }
  }
}
