/**
  The merge loop of SubAutoCompress in factory.go on the event table of mysql.go, with other
  nodes appending to the table and statements failing at any point.
 */
module Compaction {
  import opened Options
  import opened EventLog

  /** What else happens between two statements: rows other nodes append, and whether the
      next statement fails and is rolled back. */
  datatype Between = Between(appended: seq<(nat, string, string)>, fails: bool)

  /** What a table keeps against all events ever appended: of every key whose events are in
      order the same weight, of every other no more. */
  ghost predicate TableOk(rows: seq<Row>, events: seq<Row>, nextId: nat) {
    && LogOk(rows) && LogOk(events)
    && (forall r <- rows :: r.id < nextId) && (forall r <- events :: r.id < nextId)
    && forall k :: InStep(rows, events, k)
  }

  ghost predicate InStep(rows: seq<Row>, events: seq<Row>, k: Key) {
    Tracks(KeyRows(rows, k), KeyRows(events, k)) && Weight(rows, k) <= Weight(events, k)
  }

  /** In order means the same weight. */
  lemma SameWeight(rows: seq<Row>, events: seq<Row>, nextId: nat, k: Key)
    requires TableOk(rows, events, nextId) && InOrder(KeyRows(events, k))
    ensures Weight(rows, k) == Weight(events, k)
  {
    assert InStep(rows, events, k);
    TracksWeight(KeyRows(rows, k), KeyRows(events, k));
  }

  /** What one merge keeps and does. */
  lemma MergeDone(rows: seq<Row>, events: seq<Row>, nextId: nat, cut: nat, k: Key)
    requires TableOk(rows, events, nextId) && Main(Looked(rows, cut, k)) != []
    ensures var rows' := AfterMerge(rows, Main(Looked(rows, cut, k)));
      && TableOk(rows', events, nextId) && Beyond(rows', cut) == Beyond(rows, cut)
      && (forall key :: key != k ==> Looked(rows', cut, key) == Looked(rows, cut, key))
      && Looked(rows', cut, k) == MergedRows(Looked(rows, cut, k))
  {
    hide KeyRows, Upto, AfterMerge, MergedRows, Main, LogOk, Weight, Looked, Tracks, Beyond;
    MergeRows(rows, cut, k);
    MergeKeepsWeights(rows, cut, k);
    var rows' := AfterMerge(rows, Main(Looked(rows, cut, k)));
    forall key ensures InStep(rows', events, key) {
      assert InStep(rows, events, key);
      if key == k { OwnInStep(rows, events, cut, k); }
    }
  }

  lemma OwnInStep(rows: seq<Row>, events: seq<Row>, cut: nat, k: Key)
    requires LogOk(rows) && Main(Looked(rows, cut, k)) != [] && Tracks(KeyRows(rows, k), KeyRows(events, k))
    ensures Tracks(MergedRows(Looked(rows, cut, k)) + KeyRows(Beyond(rows, cut), k), KeyRows(events, k))
  {
    KeyParts(rows, cut, k);
    KeyRowsKinds(Beyond(rows, cut), k);
    hide KeyRows, Upto, Beyond, Tracks, MergedRows, Main;
    TracksMerge(Looked(rows, cut, k), KeyRows(Beyond(rows, cut), k), KeyRows(events, k));
  }

  /** One more event in both. */
  lemma AppendDone(rows: seq<Row>, events: seq<Row>, nextId: nat, r: Row)
    requires TableOk(rows, events, nextId) && r.id == nextId && r.num == 0
    ensures TableOk(rows + [r], events + [r], nextId + 1)
  {
    hide KeyRows, LogOk, Weight, Tracks, Replay;
    AppendKeeps(rows, r);
    AppendKeeps(events, r);
    forall k ensures InStep(rows + [r], events + [r], k) {
      assert InStep(rows, events, k);
      KeyRowsSnoc(rows, r, k);
      KeyRowsSnoc(events, r, k);
      if KeyOf(r) == k && r.kind in {1, 2} {
        TracksAppend(KeyRows(rows, k), KeyRows(events, k), r);
      } else {
        assert KeyRows(rows, k) + [] == KeyRows(rows, k) && KeyRows(events, k) + [] == KeyRows(events, k);
      }
    }
  }

  class SubTable {
    var rows: seq<Row>
    var nextId: nat
    ghost var events: seq<Row>  // every event ever appended, never merged

    ghost predicate Valid()
      reads this
    {
      TableOk(rows, events, nextId)
    }

    constructor ()
      ensures Valid() && rows == [] && events == []
    {
      rows, events, nextId := [], [], 1;
    }

    /** A node writes an event, in whatever order its tasks come to it. */
    method Append(kind: nat, sender: string, topic: string)
      requires Valid()
      modifies this
      ensures Valid()
      ensures var r := Row(old(nextId), kind, sender, topic, 0);
        rows == old(rows) + [r] && events == old(events) + [r] && nextId == old(nextId) + 1
    {
      var r := Row(nextId, kind, sender, topic, 0);
      AppendDone(rows, events, nextId, r);
      rows := rows + [r];
      events := events + [r];
      nextId := nextId + 1;
    }

    /** The oldest rows, if there are enough. */
    method GetSubs(min: nat, limit: nat) returns (subs: array<Option<Row>>)
      requires Valid()
      ensures fresh(subs)
      ensures |rows| < min ==> subs.Length == 0
      ensures |rows| >= min ==> subs.Length <= limit && subs.Length <= |rows| && subs.Length in {limit, |rows|}
      ensures forall i :: 0 <= i < subs.Length ==> subs[i] == Some(rows[i])
    {
      var n := BatchSize(|rows|, min, limit);
      subs := new Option<Row>[n](i requires 0 <= i < n && n <= |rows| reads this => Some(rows[i]));
    }

    /** One transaction: the merged row updated and the others deleted, or nothing. */
    method DelSome(id: nat, num: nat, del: seq<nat>, fails: bool, ghost cut: nat, ghost k: Key) returns (err: bool)
      requires Valid()
      requires var a := Main(Looked(rows, cut, k));
        a != [] && Net(a) > 0 && id == a[0].id && num == Net(a) - 1 && Set(del) == IdsOf(a[1..])
      modifies this
      ensures Valid() && events == old(events) && nextId == old(nextId) && err == fails
      ensures rows == if fails then old(rows) else AfterMerge(old(rows), Main(Looked(old(rows), cut, k)))
      ensures forall key :: key != k ==> Looked(rows, cut, key) == Looked(old(rows), cut, key)
      ensures Looked(rows, cut, k) == if fails then Looked(old(rows), cut, k) else MergedRows(Looked(old(rows), cut, k))
      ensures Beyond(rows, cut) == Beyond(old(rows), cut)
    {
      if fails {
        return true;
      }
      MergeDone(rows, events, nextId, cut, k);
      hide Looked, Beyond, Main, UpdateDelete, Net, MergedRows, IdsOf, TableOk;
      rows := UpdateDelete(rows, id, num, Set(del));
      return false;
    }

    /** One statement: every row of a cancelled key deleted, or nothing. */
    method DelPatAll(del: seq<nat>, fails: bool, ghost cut: nat, ghost k: Key) returns (err: bool)
      requires Valid()
      requires var a := Main(Looked(rows, cut, k));
        a != [] && Net(a) == 0 && Set(del) == IdsOf(a)
      modifies this
      ensures Valid() && events == old(events) && nextId == old(nextId) && err == fails
      ensures rows == if fails then old(rows) else AfterMerge(old(rows), Main(Looked(old(rows), cut, k)))
      ensures forall key :: key != k ==> Looked(rows, cut, key) == Looked(old(rows), cut, key)
      ensures Looked(rows, cut, k) == if fails then Looked(old(rows), cut, k) else MergedRows(Looked(old(rows), cut, k))
      ensures Beyond(rows, cut) == Beyond(old(rows), cut)
    {
      if fails {
        return true;
      }
      MergeDone(rows, events, nextId, cut, k);
      hide Looked, Beyond, Main, UpdateDelete, Net, MergedRows, IdsOf, TableOk;
      ghost var a := Main(Looked(rows, cut, k));
      NumIrrelevant(rows, a[0].id, 0, Set(del));
      rows := Delete(rows, Set(del));
      return false;
    }
  }

  /** How many rows a pass looks at; a table shorter than `min` is left alone. */
  function BatchSize(count: nat, min: nat, limit: nat): (n: nat)
    ensures count < min ==> n == 0
    ensures count >= min ==> n <= limit && n <= count && n in {limit, count}
  {
    if count < min then 0 else if limit < count then limit else count
  }

  function Set(ids: seq<nat>): set<nat> {
    set i | 0 <= i < |ids| :: ids[i]
  }

  /** delete from sub where id in del */
  function Delete(rows: seq<Row>, del: set<nat>): seq<Row> {
    if rows == [] then [] else (if rows[0].id in del then [] else [rows[0]]) + Delete(rows[1..], del)
  }

  lemma {:induction false} NumIrrelevant(rows: seq<Row>, id: nat, num: nat, del: set<nat>)
    requires id in del
    ensures UpdateDelete(rows, id, num, del) == Delete(rows, del)
  {
    if rows != [] { NumIrrelevant(rows[1..], id, num, del); }
  }

  /** What the inner loop counts: the first row with its number, every other event as one. */
  function Tally(rows: seq<Row>): int {
    if rows == [] then 0
    else if |rows| == 1 then rows[0].num + 1
    else Tally(rows[..|rows| - 1]) + if rows[|rows| - 1].kind == 1 then 1 else -1
  }

  /** The count of the loop is the net count of events exactly when no row after the first
      stands for more than one. */
  lemma {:induction false} TallyIsNet(rows: seq<Row>)
    requires rows != [] && rows[0].kind == 1 && forall i :: 0 <= i < |rows| ==> rows[i].kind in {1, 2}
    ensures Tally(rows) <= Net(rows)
    ensures Tally(rows) == Net(rows) <==> MergedFirst(rows)
  {
    var n := |rows| - 1;
    if n == 0 {
      assert rows[1..] == [];
    } else {
      var before, last := rows[..n], rows[n];
      TallyIsNet(before);
      assert rows == before + [last] && [last][1..] == [];
      NetJoin(before, [last]);
      assert Net([last]) == Change(last);
      if MergedFirst(rows) {
        assert forall j :: 0 < j < n ==> before[j] == rows[j];
      }
      if MergedFirst(before) && (last.kind == 1 ==> last.num == 0) {
        forall j | 0 < j < |rows| && rows[j].kind == 1 ensures rows[j].num == 0 {
          if j < n { assert rows[j] == before[j]; }
        }
      }
    }
  }

  // ---------- the pass ----------

  /** The batch without the rows of the keys done. */
  predicate Remaining(subs: seq<Option<Row>>, batch: seq<Row>, from: nat, done: set<Key>) {
    && |subs| == |batch|
    && forall j :: from <= j < |batch| ==>
         subs[j] == if KeyOf(batch[j]) in done && batch[j].kind in {1, 2} then None else Some(batch[j])
  }

  /** The keys not done yet have their rows in the table as in the batch, and no subscribe
      among them before `from`. */
  ghost predicate Pending(rows: seq<Row>, cut: nat, batch: seq<Row>, from: nat, done: set<Key>)
    requires from <= |batch|
  {
    forall k :: k !in done ==> Looked(rows, cut, k) == KeyRows(batch, k) && Main(KeyRows(batch[..from], k)) == []
  }

  /** The keys done are merged or, unless every statement has taken effect, still as they
      were. */
  ghost predicate Handled(rows: seq<Row>, cut: nat, batch: seq<Row>, done: set<Key>, clean: bool) {
    forall k <- done :: HandledOne(rows, cut, batch, k, clean)
  }

  ghost predicate HandledOne(rows: seq<Row>, cut: nat, batch: seq<Row>, k: Key, clean: bool) {
    || Looked(rows, cut, k) == MergedRows(KeyRows(batch, k))
    || (!clean && Looked(rows, cut, k) == KeyRows(batch, k))
  }

  /** Behind the rows looked at stand, with those already there, just the events appended
      since. */
  ghost predicate Grown(was: seq<Row>, events0: seq<Row>, rows: seq<Row>, events: seq<Row>, cut: nat) {
    events0 <= events && Beyond(rows, cut) == Beyond(was, cut) + events[|events0|..]
  }

  lemma GrownTwice(r0: seq<Row>, e0: seq<Row>, r1: seq<Row>, e1: seq<Row>, r2: seq<Row>, e2: seq<Row>, cut: nat)
    requires Grown(r0, e0, r1, e1, cut) && Grown(r1, e1, r2, e2, cut)
    ensures Grown(r0, e0, r2, e2, cut)
  {
    assert e2[|e0|..] == e1[|e0|..] + e2[|e1|..];
  }

  lemma GrownNot(rows: seq<Row>, events: seq<Row>, cut: nat)
    ensures Grown(rows, events, rows, events, cut)
  {
  }

  /** A row alone is already merged. */
  lemma OneIsMerged(a: seq<Row>)
    requires |a| == 1 && a[0].kind == 1
    ensures Merged(a) == a
  {
    assert a == [a[0]] && a[1..] == [] && Net(a) == Change(a[0]);
  }

  /** Other nodes append events of any kind. */
  method OthersAppend(table: SubTable, appended: seq<(nat, string, string)>, ghost cut: nat)
    requires table.Valid() && cut < table.nextId
    modifies table
    ensures table.Valid() && cut < table.nextId
    ensures Upto(table.rows, cut) == Upto(old(table.rows), cut)
    ensures Grown(old(table.rows), old(table.events), table.rows, table.events, cut)
  {
    GrownNot(table.rows, table.events, cut);
    hide TableOk, Upto, Beyond;
    for i := 0 to |appended|
      invariant table.Valid() && cut < table.nextId
      invariant Upto(table.rows, cut) == Upto(old(table.rows), cut)
      invariant Grown(old(table.rows), old(table.events), table.rows, table.events, cut)
    {
      var (kind, sender, topic) := appended[i];
      UptoAppend(table.rows, Row(table.nextId, kind, sender, topic, 0), cut);
      table.Append(kind, sender, topic);
    }
  }

  lemma UptoAppend(rows: seq<Row>, r: Row, cut: nat)
    requires r.id > cut
    ensures Upto(rows + [r], cut) == Upto(rows, cut)
    ensures Beyond(rows + [r], cut) == Beyond(rows, cut) + [r]
  {
    UptoJoin(rows, [r], cut);
    BeyondJoin(rows, [r], cut);
    assert [r][1..] == [] && Upto([r], cut) == [] && Beyond([r], cut) == [r];
  }

  lemma {:induction false} BeyondJoin(a: seq<Row>, b: seq<Row>, cut: nat)
    ensures Beyond(a + b, cut) == Beyond(a, cut) + Beyond(b, cut)
  {
    if a == [] {
      assert a + b == b;
    } else {
      assert (a + b)[1..] == a[1..] + b;
      BeyondJoin(a[1..], b, cut);
      var one := if a[0].id > cut then [a[0]] else [];
      Regroup(one, Beyond(a[1..], cut), Beyond(b, cut));
    }
  }

  lemma BatchIsUpto(rows: seq<Row>, n: nat)
    requires Ordered(rows) && 0 < n <= |rows|
    ensures Upto(rows, rows[n - 1].id) == rows[..n]
  {
    var cut := rows[n - 1].id;
    assert rows == rows[..n] + rows[n..];
    UptoJoin(rows[..n], rows[n..], cut);
    UptoAll(rows[..n], cut);
    UptoNone(rows[n..], cut);
  }

  lemma KeyRowsNext(batch: seq<Row>, j: nat, k: Key)
    requires j < |batch|
    ensures KeyRows(batch[..j + 1], k) ==
      KeyRows(batch[..j], k) + if KeyOf(batch[j]) == k && batch[j].kind in {1, 2} then [batch[j]] else []
  {
    assert batch[..j + 1] == batch[..j] + [batch[j]];
    KeyRowsJoin(batch[..j], [batch[j]], k);
    assert [batch[j]][1..] == [];
  }

  lemma KeyRowsPrefix(batch: seq<Row>, j: nat, k: Key)
    requires j <= |batch|
    ensures KeyRows(batch[..j], k) <= KeyRows(batch, k)
  {
    assert batch == batch[..j] + batch[j..];
    KeyRowsJoin(batch[..j], batch[j..], k);
  }

  /** A subscribe left of a key that is not done is the key's first. */
  lemma LeadSubscribes(rows: seq<Row>, cut: nat, batch: seq<Row>, i: nat, done: set<Key>)
    requires LogOk(rows) && i < |batch| && Pending(rows, cut, batch, i, done)
    requires KeyOf(batch[i]) !in done && batch[i].kind == 1
    ensures Main(KeyRows(batch[..i + 1], KeyOf(batch[i]))) == [batch[i]]
    ensures var a := Main(KeyRows(batch, KeyOf(batch[i])));
      a != [] && a[0] == batch[i] && MergedFirst(a) && forall x :: 0 <= x < |a| ==> a[x].kind in {1, 2}
  {
    var k := KeyOf(batch[i]);
    FirstOfKey(batch, i);
    KeyRowsKinds(batch, k);
    MainWithin(KeyRows(batch, k));
    hide KeyRows, Upto, Beyond, Main, Lead, Ordered;
    OkIsOrdered(rows);
    KeyParts(rows, cut, k);
    LeadJoin(Looked(rows, cut, k), KeyRows(Beyond(rows, cut), k));
    assert MergedFirst(Main(KeyRows(rows, k)));
    FirstOfMore(Main(KeyRows(batch, k)), KeyRows(Beyond(rows, cut), k));
  }

  lemma KeyRowsCut(batch: seq<Row>, i: nat, k: Key)
    requires i <= |batch|
    ensures KeyRows(batch, k) == KeyRows(batch[..i], k) + KeyRows(batch[i..], k)
  {
    assert batch == batch[..i] + batch[i..];
    KeyRowsJoin(batch[..i], batch[i..], k);
  }

  /** A subscribe before which the key has none. */
  lemma FirstOfKey(batch: seq<Row>, i: nat)
    requires i < |batch| && batch[i].kind == 1 && Main(KeyRows(batch[..i], KeyOf(batch[i]))) == []
    ensures Main(KeyRows(batch[..i + 1], KeyOf(batch[i]))) == [batch[i]]
    ensures var a := Main(KeyRows(batch, KeyOf(batch[i]))); a != [] && a[0] == batch[i]
  {
    var k := KeyOf(batch[i]);
    KeyRowsNext(batch, i, k);
    LeadJoin(KeyRows(batch[..i], k), [batch[i]]);
    assert Main([batch[i]]) == [batch[i]];
    KeyRowsCut(batch, i + 1, k);
    hide KeyRows, Main, Lead;
    LeadJoin(KeyRows(batch[..i + 1], k), KeyRows(batch[i + 1..], k));
  }

  lemma FirstOfMore(a: seq<Row>, b: seq<Row>)
    requires MergedFirst(a + b)
    ensures MergedFirst(a)
  {
    assert forall j :: 0 < j < |a| ==> (a + b)[j] == a[j];
  }

  /** Ids in order, as the loop collects them. */
  function IdSeq(rows: seq<Row>): seq<nat> {
    seq(|rows|, i requires 0 <= i < |rows| => rows[i].id)
  }

  /** The variables of the inner loop after a key's rows `a`. */
  predicate Counted(a: seq<Row>, num: int, del: seq<nat>, tag: bool) {
    a != [] && num == Tally(a) && del == IdSeq(a[1..]) && (tag <==> |a| > 1)
  }

  lemma CountOne(r: Row)
    ensures Counted([r], r.num + 1, [], false)
  {
  }

  lemma Alone(a: seq<Row>, num: int, del: seq<nat>)
    requires Counted(a, num, del, false) && a[0].kind == 1
    ensures Merged(a) == a
  {
    OneIsMerged(a);
  }

  lemma CountNext(a: seq<Row>, num: int, del: seq<nat>, tag: bool, r: Row)
    requires Counted(a, num, del, tag) && r.kind in {1, 2}
    ensures Counted(a + [r], if r.kind == 1 then num + 1 else num - 1, del + [r.id], true)
  {
  }

  lemma MainNext(rows: seq<Row>, r: Row)
    requires Main(rows) != []
    ensures Main(rows + [r]) == Main(rows) + [r] && Main(rows + []) == Main(rows)
  {
    LeadJoin(rows, [r]);
    assert rows + [] == rows;
  }

  lemma SomeCounted(a: seq<Row>, num: int, del: seq<nat>, tag: bool)
    requires Counted(a, num, del, tag)
    ensures a != []
  {
  }

  /** The inner loop: counts the key's other rows, collects their ids and takes them out of
      the batch. */
  method Gather(subs: array<Option<Row>>, i: nat, ghost batch: seq<Row>, ghost done: set<Key>)
    returns (num: int, del: seq<nat>, tag: bool)
    requires i < subs.Length && Remaining(subs[..], batch, i, done)
    requires batch[i].kind == 1 && KeyOf(batch[i]) !in done
    requires Main(KeyRows(batch[..i + 1], KeyOf(batch[i]))) == [batch[i]]
    modifies subs
    ensures Remaining(subs[..], batch, i + 1, done + {KeyOf(batch[i])})
    ensures Counted(Main(KeyRows(batch, KeyOf(batch[i]))), num, del, tag)
  {
    hide KeyRows, Main;
    hide Counted;
    var first := subs[i].value;
    ghost var k := KeyOf(first);
    num, del, tag := first.num + 1, [], false;
    CountOne(first);
    for j := i + 1 to subs.Length
      invariant |subs[..]| == |batch|
      invariant forall x :: j <= x < |batch| ==>
        subs[x] == if KeyOf(batch[x]) in done && batch[x].kind in {1, 2} then None else Some(batch[x])
      invariant forall x :: i < x < j ==>
        subs[x] == if KeyOf(batch[x]) in done + {k} && batch[x].kind in {1, 2} then None else Some(batch[x])
      invariant Counted(Main(KeyRows(batch[..j], k)), num, del, tag)
    {
      KeyRowsNext(batch, j, k);
      ghost var a := Main(KeyRows(batch[..j], k));
      SomeCounted(a, num, del, tag);
      MainNext(KeyRows(batch[..j], k), batch[j]);
      var sb := subs[j];
      if sb == None || sb.value.sender != first.sender || sb.value.topic != first.topic {
        continue;
      }
      if sb.value.kind == 1 || sb.value.kind == 2 {
        CountNext(a, num, del, tag, sb.value);
      }
      if sb.value.kind == 1 {
        num := num + 1;
      } else if sb.value.kind == 2 {
        num := num - 1;
      } else {
        continue;
      }
      tag := true;
      del := del + [sb.value.id];
      subs[j] := None;
    }
    assert batch[..|batch|] == batch;
  }

  lemma IdSets(a: seq<Row>)
    requires a != []
    ensures Set(IdSeq(a[1..])) == IdsOf(a[1..])
    ensures Set(IdSeq(a[1..]) + [a[0].id]) == IdsOf(a)
  {
    var del := IdSeq(a[1..]);
    forall x ensures x in Set(del) <==> x in IdsOf(a[1..]) {
      if x in IdsOf(a[1..]) { var i :| 0 <= i < |a[1..]| && a[1..][i].id == x; assert del[i] == x; }
    }
    forall x ensures x in Set(del + [a[0].id]) <==> x in IdsOf(a) {
      if x in Set(del + [a[0].id]) {
        var i :| 0 <= i < |del + [a[0].id]| && (del + [a[0].id])[i] == x;
        assert i < |del| ==> a[i + 1].id == x;
        assert i == |del| ==> a[0].id == x;
      }
      if x in IdsOf(a) {
        var i :| 0 <= i < |a| && a[i].id == x;
        assert (del + [a[0].id])[if i == 0 then |del| else i - 1] == x;
      }
    }
  }

  /** One turn of the outer loop: a subscribe left in the batch has its key's rows from there
      on gathered and merged, any other row is passed over. */
  method Turn(table: SubTable, subs: array<Option<Row>>, i: nat, between: Between, ghost cut: nat,
              ghost batch: seq<Row>, ghost done: set<Key>)
    returns (ghost done': set<Key>)
    requires table.Valid() && cut < table.nextId && i < subs.Length
    requires Remaining(subs[..], batch, i, done) && Pending(table.rows, cut, batch, i, done)
    modifies table, subs
    ensures table.Valid() && cut < table.nextId
    ensures Grown(old(table.rows), old(table.events), table.rows, table.events, cut)
    ensures Remaining(subs[..], batch, i + 1, done') && Pending(table.rows, cut, batch, i + 1, done')
    ensures forall clean :: Handled(old(table.rows), cut, batch, done, clean) ==>
      Handled(table.rows, cut, batch, done', clean && !between.fails)
  {
    hide KeyRows, Looked, Main, Net, LogOk, Weight, Counted, Merged, MergedRows, Beyond, Grown;
    GrownNot(table.rows, table.events, cut);
    PendingNext(table.rows, cut, batch, i, done);
    if subs[i] == None {
      return done;
    }
    var first := subs[i].value;
    if first.kind != 1 {
      subs[i] := None;
      return done;
    }
    LeadSubscribes(table.rows, cut, batch, i, done);
    ghost var k, was := KeyOf(first), table.rows;
    var num, del, tag := Gather(subs, i, batch, done);
    if tag {
      Conclude(table, first.id, num, del, between, cut, k);
    } else {
      LoneIsMerged(KeyRows(batch, k), num, del);
    }
    OneDone(was, table.rows, cut, batch, i, done);
    return done + {k};
  }

  lemma LoneIsMerged(rows: seq<Row>, num: int, del: seq<nat>)
    requires Counted(Main(rows), num, del, false) && Main(rows)[0].kind == 1
    ensures MergedRows(rows) == rows
  {
    LeadSplit(rows);
    OneIsMerged(Main(rows));
  }

  /** The turns over a whole batch. */
  method AllTurns(table: SubTable, subs: array<Option<Row>>, env: seq<Between>, ghost cut: nat,
                  ghost batch: seq<Row>, ghost clean: bool)
    requires table.Valid() && cut < table.nextId && subs.Length == |batch|
    requires Remaining(subs[..], batch, 0, {}) && Pending(table.rows, cut, batch, 0, {})
    requires clean ==> forall b <- env :: !b.fails
    modifies table, subs
    ensures table.Valid() && Grown(old(table.rows), old(table.events), table.rows, table.events, cut)
    ensures forall k :: HandledOne(table.rows, cut, batch, k, clean)
  {
    ghost var done: set<Key> := {};
    HandledNone(table.rows, cut, batch);
    hide KeyRows, Upto, Merged, MergedRows, Beyond, Grown, Main, Remaining, Pending, Handled, HandledOne, TableOk;
    GrownNot(table.rows, table.events, cut);
    for i := 0 to subs.Length
      invariant table.Valid() && cut < table.nextId
      invariant Grown(old(table.rows), old(table.events), table.rows, table.events, cut)
      invariant Remaining(subs[..], batch, i, done) && Pending(table.rows, cut, batch, i, done)
      invariant Handled(table.rows, cut, batch, done, false)
      invariant clean ==> Handled(table.rows, cut, batch, done, true)
    {
      ghost var rows0, events0 := table.rows, table.events;
      done := Turn(table, subs, i, if i < |env| then env[i] else Between([], false), cut, batch, done);
      GrownTwice(old(table.rows), old(table.events), rows0, events0, table.rows, table.events, cut);
    }
    AllDone(table.rows, cut, batch, done, clean);
  }

  /** One pass of SubAutoCompress, between whose statements other nodes append whatever they
      append and any of whose statements may fail. Each key looked at is left as it was or
      merged, with just the appended events behind. When nothing fails one row is left of a key
      above zero, none of one at zero and all of one below, besides its leading unsubscribes;
      and then the pass keeps the replay of a key's rows exactly when they are mergeable. */
  method MergePass(table: SubTable, min: nat, limit: nat, env: seq<Between>) returns (ghost n: nat)
    requires table.Valid()
    modifies table
    ensures table.Valid() && old(table.events) <= table.events
    ensures |old(table.rows)| < min ==> n == 0
    ensures |old(table.rows)| >= min ==> n <= limit && n <= |old(table.rows)| && n in {limit, |old(table.rows)|}
    ensures var was := old(table.rows);
      if n == 0 then table.rows == was && table.events == old(table.events)
      else
        var cut, clean := was[n - 1].id, forall b <- env :: !b.fails;
        && Grown(was, old(table.events), table.rows, table.events, cut)
        && (forall k :: HandledOne(table.rows, cut, was[..n], k, clean))
        && (clean ==> forall k :: Compacted(KeyRows(was[..n], k), Looked(table.rows, cut, k)))
        && (clean ==> forall k :: var a := KeyRows(was[..n], k);
              Replay(0, Looked(table.rows, cut, k)) == Replay(0, a) <==> Mergeable(a))
  {
    var subs := table.GetSubs(min, limit);
    n := subs.Length;
    if subs.Length == 0 {
      return;
    }
    ghost var batch := table.rows[..subs.Length];
    ghost var cut, clean := table.rows[subs.Length - 1].id, forall b <- env :: !b.fails;
    PassStarts(table.rows, table.events, table.nextId, subs[..]);
    hide KeyRows, Upto, Net, LogOk, Weight, Merged, MergedRows, Beyond, Grown, Main, Replay, Mergeable, Compacted;
    hide Remaining, Pending, HandledOne, TableOk;
    AllTurns(table, subs, env, cut, batch, clean);
    PassKeeps(table.rows, cut, batch, clean);
    PassCompacts(table.rows, cut, batch, clean);
    GrownEvents(old(table.rows), old(table.events), table.rows, table.events, cut);
  }

  lemma GrownEvents(was: seq<Row>, events0: seq<Row>, rows: seq<Row>, events: seq<Row>, cut: nat)
    requires Grown(was, events0, rows, events, cut)
    ensures events0 <= events
  {
  }

  /** At the end of the batch every key that has a subscribe in it is done. */
  lemma AllDone(rows: seq<Row>, cut: nat, batch: seq<Row>, done: set<Key>, clean: bool)
    requires Pending(rows, cut, batch, |batch|, done) && Handled(rows, cut, batch, done, clean)
    ensures forall k :: HandledOne(rows, cut, batch, k, clean)
  {
    assert batch[..|batch|] == batch;
    forall k ensures HandledOne(rows, cut, batch, k, clean) {
      if k !in done {
        LeadSplit(KeyRows(batch, k));
        assert Lead(KeyRows(batch, k)) + [] == KeyRows(batch, k);
      }
    }
  }

  /** What a clean pass leaves of a key's rows: behind its leading unsubscribes one row that
      carries the count, none at zero, all below. */
  predicate Compacted(a: seq<Row>, left: seq<Row>) {
    var n, lead := Net(Main(a)), Lead(a);
    && lead <= left
    && (n > 0 ==> |left| == |lead| + 1 && Main(a) != [] && left[|lead|] == Main(a)[0].(num := n - 1))
    && (n == 0 ==> left == lead)
    && (n < 0 ==> left == a)
  }

  lemma MergedIsCompacted(a: seq<Row>)
    ensures Compacted(a, MergedRows(a))
  {
    LeadSplit(a);
    assert Lead(a) + [] == Lead(a);
  }

  lemma PassCompacts(rows: seq<Row>, cut: nat, batch: seq<Row>, clean: bool)
    requires forall k :: HandledOne(rows, cut, batch, k, clean)
    ensures clean ==> forall k :: Compacted(KeyRows(batch, k), Looked(rows, cut, k))
  {
    hide KeyRows, Looked, MergedRows, Compacted;
    if clean {
      forall k ensures Compacted(KeyRows(batch, k), Looked(rows, cut, k)) {
        assert HandledOne(rows, cut, batch, k, clean);
        MergedIsCompacted(KeyRows(batch, k));
      }
    }
  }

  lemma PassKeeps(rows: seq<Row>, cut: nat, batch: seq<Row>, clean: bool)
    requires forall k :: HandledOne(rows, cut, batch, k, clean)
    ensures clean ==> forall k ::
      Replay(0, Looked(rows, cut, k)) == Replay(0, KeyRows(batch, k)) <==> Mergeable(KeyRows(batch, k))
  {
    hide KeyRows, Looked, MergedRows, Mergeable, Replay;
    if clean {
      forall k
        ensures Replay(0, Looked(rows, cut, k)) == Replay(0, KeyRows(batch, k)) <==> Mergeable(KeyRows(batch, k))
      {
        assert HandledOne(rows, cut, batch, k, clean);
        MergeKeepsReplay(KeyRows(batch, k));
      }
    }
  }

  lemma PendingAtStart(rows: seq<Row>, cut: nat, batch: seq<Row>)
    requires batch == Upto(rows, cut)
    ensures Pending(rows, cut, batch, 0, {})
  {
  }

  lemma PassStarts(rows: seq<Row>, events: seq<Row>, nextId: nat, subs: seq<Option<Row>>)
    requires TableOk(rows, events, nextId) && 0 < |subs| <= |rows|
    requires forall i :: 0 <= i < |subs| ==> subs[i] == Some(rows[i])
    ensures var batch, cut := rows[..|subs|], rows[|subs| - 1].id;
      cut < nextId && Remaining(subs, batch, 0, {}) && Pending(rows, cut, batch, 0, {})
  {
    var batch, cut := rows[..|subs|], rows[|subs| - 1].id;
    BatchIsUpto(rows, |subs|);
    hide InStep, Upto;
    PendingAtStart(rows, cut, batch);
    RemainingAtStart(subs, batch);
  }

  lemma RemainingAtStart(subs: seq<Option<Row>>, batch: seq<Row>)
    requires |subs| == |batch| && forall j :: 0 <= j < |batch| ==> subs[j] == Some(batch[j])
    ensures Remaining(subs, batch, 0, {})
  {
  }

  lemma HandledNone(rows: seq<Row>, cut: nat, batch: seq<Row>)
    ensures forall clean :: Handled(rows, cut, batch, {}, clean)
  {
  }

  lemma OneDone(was: seq<Row>, rows: seq<Row>, cut: nat, batch: seq<Row>, i: nat, done: set<Key>)
    requires i < |batch| && Pending(was, cut, batch, i, done)
    requires forall key :: key != KeyOf(batch[i]) ==> Looked(rows, cut, key) == Looked(was, cut, key)
    ensures Pending(rows, cut, batch, i + 1, done + {KeyOf(batch[i])})
  {
    hide Looked, KeyRows, Main;
    PendingNext(was, cut, batch, i, done);
  }

  /** The end of a turn: with other nodes' appends before it, the statement that fits the
      count, or none when that is below zero. */
  method Conclude(table: SubTable, id: nat, num: int, del: seq<nat>, between: Between, ghost cut: nat, ghost k: Key)
    requires table.Valid() && cut < table.nextId
    requires var a := Main(Looked(table.rows, cut, k));
      && Counted(a, num, del, true) && a[0].id == id && a[0].kind == 1 && MergedFirst(a)
      && forall x :: 0 <= x < |a| ==> a[x].kind in {1, 2}
    modifies table
    ensures table.Valid() && cut < table.nextId
    ensures Grown(old(table.rows), old(table.events), table.rows, table.events, cut)
    ensures forall key :: key != k ==> Looked(table.rows, cut, key) == Looked(old(table.rows), cut, key)
    ensures var was, now := Looked(old(table.rows), cut, k), Looked(table.rows, cut, k);
      now == MergedRows(was) || (between.fails && now == was)
  {
    ghost var a := Main(Looked(table.rows, cut, k));
    NoneBelow(Looked(table.rows, cut, k));
    hide KeyRows, Upto, Net, MergedFirst, LogOk, Weight, IdsOf, Merged, MergedRows, Main;
    OthersAppend(table, between.appended, cut);
    ghost var rows1 := table.rows;
    TallyIsNet(a);
    IdSets(a);
    if num == 0 {
      var all := del + [id];
      var _ := table.DelPatAll(all, between.fails, cut, k);
    } else if num > 0 && |del| > 0 {
      var _ := table.DelSome(id, num - 1, del, between.fails, cut, k);
    }
  }

  /** Rows whose count is below zero are left. */
  lemma NoneBelow(rows: seq<Row>)
    ensures Net(Main(rows)) < 0 ==> MergedRows(rows) == rows
  {
    LeadSplit(rows);
  }

  /** Going on to the next row, once its key is done or when it does not subscribe. */
  lemma PendingNext(rows: seq<Row>, cut: nat, batch: seq<Row>, i: nat, done: set<Key>)
    requires i < |batch| && Pending(rows, cut, batch, i, done)
    ensures KeyOf(batch[i]) in done || batch[i].kind != 1 ==> Pending(rows, cut, batch, i + 1, done)
    ensures Pending(rows, cut, batch, i + 1, done + {KeyOf(batch[i])})
  {
    forall k | k !in done && (k != KeyOf(batch[i]) || batch[i].kind != 1)
      ensures Main(KeyRows(batch[..i + 1], k)) == []
    {
      KeyRowsNext(batch, i, k);
      var own, one := KeyRows(batch[..i], k), KeyRows([batch[i]], k);
      LeadJoin(own, if KeyOf(batch[i]) == k && batch[i].kind in {1, 2} then [batch[i]] else []);
    }
  }
}
