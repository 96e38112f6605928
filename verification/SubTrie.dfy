/**
  The subscription trie as a value: what sinsert and sremove make of it, and the flat
  table of (filter, subscriber) pairs it must stay an index of.
 */
module SubTrie {
  import opened Options
  import opened Paths
  import opened TopicLevels
  import opened TopicMatch

  datatype Subscriber = Subscriber(id: nat)

  /** topicsv2.Sub. */
  datatype Sub = Sub(topic: string, qos: nat, noLocal: bool, retainAsPublished: bool,
                     retainHandling: nat, subIdentifier: nat)

  datatype Grant = Grant(who: Subscriber, sub: Sub)

  /** A trie as the map from the levels leading to a node to the node's subscribers. */
  type Store = map<Path, seq<Grant>>

  const EMPTY: Store := map[[] := []]

  // ---------- the subscribers of one node ----------

  function IndexOf(grants: seq<Grant>, who: Subscriber): (i: nat)
    ensures i <= |grants|
    ensures i < |grants| ==> grants[i].who == who
    ensures forall j :: 0 <= j < i ==> grants[j].who != who
  {
    if grants == [] || grants[0].who == who then 0 else 1 + IndexOf(grants[1..], who)
  }

  function Upsert(grants: seq<Grant>, grant: Grant): seq<Grant> {
    var i := IndexOf(grants, grant.who);
    if i < |grants| then grants[i := grant] else grants + [grant]
  }

  function Without(grants: seq<Grant>, who: Subscriber): seq<Grant> {
    var i := IndexOf(grants, who);
    if i < |grants| then grants[..i] + grants[i + 1..] else grants
  }

  predicate Distinct(grants: seq<Grant>) {
    forall i, j :: 0 <= i < j < |grants| ==> grants[i].who != grants[j].who
  }

  function GrantOf(grants: seq<Grant>, who: Subscriber): Option<Sub> {
    var i := IndexOf(grants, who);
    if i < |grants| then Some(grants[i].sub) else None
  }

  lemma IndexUnique(grants: seq<Grant>, who: Subscriber, i: nat)
    requires Distinct(grants) && i < |grants| && grants[i].who == who
    ensures IndexOf(grants, who) == i
  {
  }

  lemma UpsertGrants(grants: seq<Grant>, grant: Grant)
    requires Distinct(grants)
    ensures Distinct(Upsert(grants, grant))
    ensures forall v ::
      GrantOf(Upsert(grants, grant), v) == (if v == grant.who then Some(grant.sub) else GrantOf(grants, v))
  {
    var next := Upsert(grants, grant);
    forall v
      ensures GrantOf(next, v) == if v == grant.who then Some(grant.sub) else GrantOf(grants, v)
    {
      var j := IndexOf(grants, v);
      if j < |next| && next[j].who == v {
        IndexUnique(next, v, j);
      }
    }
  }

  lemma WithoutGrants(grants: seq<Grant>, who: Subscriber)
    requires Distinct(grants)
    ensures Distinct(Without(grants, who))
    ensures forall v ::
      GrantOf(Without(grants, who), v) == (if v == who then None else GrantOf(grants, v))
  {
    WithoutDistinct(grants, who);
    hide Distinct;
    forall v ensures GrantOf(Without(grants, who), v) == if v == who then None else GrantOf(grants, v) {
      if v == who {
        WithoutOne(grants, who);
      } else {
        WithoutOther(grants, who, v);
      }
    }
  }

  lemma WithoutDistinct(grants: seq<Grant>, who: Subscriber)
    requires Distinct(grants)
    ensures Distinct(Without(grants, who))
  {
  }

  lemma WithoutOne(grants: seq<Grant>, who: Subscriber)
    requires Distinct(grants)
    ensures GrantOf(Without(grants, who), who) == None
  {
    var i, next := IndexOf(grants, who), Without(grants, who);
    assert forall m :: 0 <= m < |next| ==> next[m] == grants[if m < i then m else m + 1];
  }

  lemma WithoutOther(grants: seq<Grant>, who: Subscriber, v: Subscriber)
    requires Distinct(grants) && v != who
    ensures GrantOf(Without(grants, who), v) == GrantOf(grants, v)
  {
    var i, j, next := IndexOf(grants, who), IndexOf(grants, v), Without(grants, who);
    if j < |grants| {
      WithoutDistinct(grants, who);
      IndexUnique(next, v, if j < i then j else j - 1);
    } else {
      assert forall m :: 0 <= m < |next| ==> next[m] in grants;
    }
  }

  // ---------- the operations ----------

  /** sinsert at the node under `at`. A filter cut wrongly half-way leaves the nodes made on
      the way. */
  function SInsert(t: Store, at: Path, subs: Sub, who: Subscriber): (t': Store)
    requires at in t
    ensures t.Keys <= t'.Keys
    decreases |subs.topic|
  {
    if subs.topic == "" then t[at := Upsert(t[at], Grant(who, subs))]
    else
      match NextLevel(subs.topic)
      case Malformed => t
      case Level(level, rem) =>
        var next := at + [level];
        SInsert(if next in t then t else t[next := []], next, subs.(topic := rem.GetOr("")), who)
  }

  datatype Removal = Refused | Removed(store: Store)

  /** sremove at the node under `at`; no subscriber given means all of them. */
  ghost function SRemove(t: Store, at: Path, topic: string, who: Option<Subscriber>): (r: Removal)
    requires at in t
    ensures r.Removed? ==> forall p <- t :: |p| <= |at| ==> p in r.store
    decreases |topic|
  {
    if topic == "" then
      match who
      case None => Removed(t[at := []])
      case Some(w) =>
        if IndexOf(t[at], w) < |t[at]| then Removed(t[at := Without(t[at], w)])
        else Refused
    else
      match NextLevel(topic)
      case Malformed => Refused
      case Level(level, rem) =>
        var next := at + [level];
        if next !in t then Refused
        else
          match SRemove(t, next, rem.GetOr(""), who)
          case Refused => Refused
          case Removed(t') => Removed(Prune(t', next))
  }

  ghost predicate Childless(t: Store, at: Path) {
    forall k :: at + [k] !in t
  }

  ghost predicate Bare(t: Store, at: Path)
    requires at in t
  {
    t[at] == [] && Childless(t, at)
  }

  ghost function Prune(t: Store, at: Path): (t': Store)
    requires at in t
    ensures forall p :: p != at && p in t ==> p in t' && t'[p] == t[p]
  {
    if Bare(t, at) then t - {at} else t
  }

  // ---------- what a trie holds ----------

  function Lookup(t: Store, path: Path, who: Subscriber): Option<Sub> {
    if path in t then GrantOf(t[path], who) else None
  }

  /** No node lists a subscriber twice, and a node's parent is a node. */
  ghost predicate Sound(t: Store) {
    && [] in t
    && (forall p <- t :: Distinct(t[p]))
    && (forall p, k :: p + [k] in t ==> p in t)
  }

  /** Every node below the root leads to a subscription. */
  ghost predicate Lean(t: Store) {
    forall p <- t :: p != [] ==> !Bare(t, p)
  }

  lemma {:induction false} InsertSound(t: Store, at: Path, subs: Sub, who: Subscriber)
    requires at in t && Sound(t)
    ensures Sound(SInsert(t, at, subs, who))
    decreases |subs.topic|
  {
    if subs.topic == "" {
      UpsertGrants(t[at], Grant(who, subs));
    } else {
      match NextLevel(subs.topic)
      case Malformed =>
      case Level(level, rem) =>
        var next := at + [level];
        forall p, k | p + [k] == next ensures p in t { SnocEqual(p, k, at, level); }
        InsertSound(if next in t then t else t[next := []], next, subs.(topic := rem.GetOr("")), who);
    }
  }

  lemma {:induction false} RemoveSound(t: Store, at: Path, topic: string, who: Option<Subscriber>)
    requires at in t && Sound(t)
    ensures SRemove(t, at, topic, who).Removed? ==> Sound(SRemove(t, at, topic, who).store)
    decreases |topic|
  {
    if topic == "" {
      if who.Some? { WithoutGrants(t[at], who.value); }
    } else {
      match NextLevel(topic)
      case Malformed =>
      case Level(level, rem) =>
        var next := at + [level];
        if next in t {
          RemoveSound(t, next, rem.GetOr(""), who);
        }
    }
  }

  /** An insertion changes one pair of the table: the walked filter and the subscriber. */
  lemma {:induction false} InsertLookup(t: Store, at: Path, subs: Sub, who: Subscriber, path: Path, v: Subscriber)
    requires at in t && Sound(t)
    ensures Lookup(SInsert(t, at, subs, who), path, v) ==
      if WalkFrom(at, subs.topic) == Some(path) && v == who then Some(subs.(topic := ""))
      else Lookup(t, path, v)
    decreases |subs.topic|
  {
    if subs.topic == "" {
      UpsertGrants(t[at], Grant(who, subs));
      assert at + [] == at;
    } else {
      match NextLevel(subs.topic)
      case Malformed =>
      case Level(level, rem) =>
        var next := at + [level];
        WalkStep(at, subs.topic);
        forall p, k | p + [k] == next ensures p in t { SnocEqual(p, k, at, level); }
        InsertLookup(if next in t then t else t[next := []], next, subs.(topic := rem.GetOr("")), who, path, v);
    }
  }

  /** A removal takes out that pair, or every pair of that filter. */
  lemma {:induction false} RemoveLookup(t: Store, at: Path, topic: string, who: Option<Subscriber>, path: Path,
                                        v: Subscriber)
    requires at in t && Sound(t)
    ensures SRemove(t, at, topic, who).Removed? ==>
      Lookup(SRemove(t, at, topic, who).store, path, v) ==
        if WalkFrom(at, topic) == Some(path) && (who == None || who == Some(v)) then None else Lookup(t, path, v)
    decreases |topic|
  {
    if topic == "" {
      if who.Some? { WithoutGrants(t[at], who.value); }
      assert at + [] == at;
    } else {
      match NextLevel(topic)
      case Malformed =>
      case Level(level, rem) =>
        WalkStep(at, topic);
        if at + [level] in t {
          RemoveLookup(t, at + [level], rem.GetOr(""), who, path, v);
        }
    }
  }

  /** A removal of one subscriber succeeds exactly when the pair is in the table. */
  lemma {:induction false} RemoveSucceeds(t: Store, at: Path, topic: string, w: Subscriber)
    requires at in t && Sound(t)
    ensures SRemove(t, at, topic, Some(w)).Removed? <==>
      WalkFrom(at, topic).Some? && Lookup(t, WalkFrom(at, topic).value, w).Some?
    decreases |topic|
  {
    if topic == "" {
      assert at + [] == at;
    } else {
      match NextLevel(topic)
      case Malformed =>
      case Level(level, rem) =>
        WalkStep(at, topic);
        if at + [level] in t {
          RemoveSucceeds(t, at + [level], rem.GetOr(""), w);
        } else if WalkFrom(at, topic).Some? {
          NothingBelow(t, at + [level], Walk(rem.GetOr("")).value);
        }
    }
  }

  // ---------- pruning ----------

  lemma {:induction false} RemoveLean(t: Store, at: Path, topic: string, who: Option<Subscriber>)
    requires at in t && Lean(t)
    ensures SRemove(t, at, topic, who).Removed? ==> LeanBut(SRemove(t, at, topic, who).store, at)
    decreases |topic|
  {
    if topic == "" {
      var r := SRemove(t, at, topic, who);
      if r.Removed? {
        forall p <- r.store | p != [] && p != at ensures !Bare(r.store, p) {
          assert !Bare(t, p) && r.store.Keys == t.Keys;
        }
      }
    } else {
      match NextLevel(topic)
      case Malformed =>
      case Level(level, rem) =>
        var next := at + [level];
        if next in t {
          RemoveLean(t, next, rem.GetOr(""), who);
          var r := SRemove(t, next, rem.GetOr(""), who);
          if r.Removed? { PruneLean(r.store, at, level); }
        }
    }
  }

  /** Lean except for one node. */
  ghost predicate LeanBut(t: Store, at: Path) {
    forall p <- t :: p != [] && p != at ==> !Bare(t, p)
  }

  lemma PruneLean(t: Store, at: Path, level: string)
    requires at + [level] in t && LeanBut(t, at + [level])
    ensures LeanBut(Prune(t, at + [level]), at)
  {
    var t' := Prune(t, at + [level]);
    forall p <- t' | p != [] && p != at ensures !Bare(t', p) {
      if p != at + [level] && t[p] == [] {
        assert !Bare(t, p);
        var k :| p + [k] in t;
        SnocEqual(p, k, at, level);
        assert p + [k] in t';
      }
    }
  }

  /** Whether every level cut before the end or the failure already has its node. */
  predicate PrefixPresent(t: Store, at: Path, topic: string)
    decreases |topic|
  {
    topic == "" ||
    match NextLevel(topic)
    case Malformed => true
    case Level(level, rem) => at + [level] in t && PrefixPresent(t, at + [level], rem.GetOr(""))
  }

  /** An insertion keeps the trie lean exactly when the filter can be cut to its end, or
      its failed cut met only nodes that were there already. */
  lemma InsertLean(t: Store, subs: Sub, who: Subscriber)
    requires Lean(t) && Sound(t)
    ensures Lean(SInsert(t, [], subs, who)) <==> Walk(subs.topic).Some? || PrefixPresent(t, [], subs.topic)
  {
    InsertLeanFrom(t, [], subs, who);
  }

  /** A filter whose second level is malformed leaves the first one's node, bare. */
  lemma BareNodeLeft(subs: Sub, who: Subscriber)
    requires subs.topic == "a/#b"
    ensures var t := SInsert(map[[] := []], [], subs, who); Walk(subs.topic) == None && ["a"] in t && Bare(t, ["a"])
  {
    FirstSeparatorIsFirst("a/#b", 1);
    assert "a/#b"[..1] == "a" && "a/#b"[2..] == "#b";
    FirstSeparatorIsFirst("#b", 2);
    assert "#b"[..2] == "#b" && "#b"[0] == '#' && "#b"[1] == 'b';
    assert NextLevel("a/#b") == Level("a", Some("#b")) && NextLevel("#b") == Malformed;
    assert Walk("#b") == None;
    var t: Store := map[[] := [], ["a"] := []];
    assert [] + ["a"] == ["a"];
    assert SInsert(map[[] := []], [], subs, who) == t;
    forall k ensures ["a"] + [k] !in t { assert |["a"] + [k]| == 2; }
  }

  lemma {:induction false} InsertLeanFrom(t: Store, at: Path, subs: Sub, who: Subscriber)
    requires at in t && LeanBut(t, at) && Sound(t)
    ensures var t' := SInsert(t, at, subs, who);
      if Walk(subs.topic).Some? then Lean(t')
      else if PrefixPresent(t, at, subs.topic) then t' == t
      else !Lean(t')
    decreases |subs.topic|
  {
    var t' := SInsert(t, at, subs, who);
    if subs.topic == "" {
      forall p <- t' | p != [] ensures !Bare(t', p) {
        assert p != at ==> !Bare(t, p);
      }
    } else {
      match NextLevel(subs.topic)
      case Malformed =>
      case Level(level, rem) =>
        var next := at + [level];
        var below := subs.(topic := rem.GetOr(""));
        var t0 := if next in t then t else t[next := []];
        WalkStep(at, subs.topic);
        forall p, k | p + [k] == next ensures p == at { SnocEqual(p, k, at, level); }
        assert LeanBut(t0, next) by {
          forall p <- t0 | p != [] && p != next ensures !Bare(t0, p) {
            if p == at { assert at + [level] in t0; } else { assert !Bare(t, p); }
          }
        }
        InsertLeanFrom(t0, next, below, who);
        if next !in t && Walk(subs.topic) == None {
          FreshChainDies(t0, next, below, who);
        }
    }
  }

  /** A failed cut below a fresh childless node leaves a dead node. */
  lemma {:induction false} FreshChainDies(t: Store, at: Path, subs: Sub, who: Subscriber)
    requires at in t && at != [] && Bare(t, at) && Sound(t) && Walk(subs.topic) == None
    ensures !Lean(SInsert(t, at, subs, who))
    decreases |subs.topic|
  {
    match NextLevel(subs.topic)
    case Malformed =>
    case Level(level, rem) =>
      var next := at + [level];
      var t0 := t[next := []];
      WalkStep(at, subs.topic);
      forall p, k | p + [k] == next ensures p == at { SnocEqual(p, k, at, level); }
      forall k ensures next + [k] !in t0 { }
      FreshChainDies(t0, next, subs.(topic := rem.GetOr("")), who);
  }

  // ---------- runs ----------

  datatype Op =
    | Subscribe(subs: Sub, who: Subscriber)
    | Unsubscribe(topic: string, from: Option<Subscriber>)

  ghost function Apply(t: Store, op: Op): Store
    requires [] in t
  {
    match op
    case Subscribe(subs, who) => SInsert(t, [], subs, who)
    case Unsubscribe(topic, from) =>
      match SRemove(t, [], topic, from)
      case Refused => t
      case Removed(next) => next
  }

  ghost function Run(ops: seq<Op>): (t: Store)
    ensures [] in t
  {
    if ops == [] then EMPTY else Apply(Run(ops[..|ops| - 1]), ops[|ops| - 1])
  }

  type Table = map<(Path, Subscriber), Sub>

  /** The same operation on the flat table of filters. */
  function ApplyFlat(m: Table, op: Op): Table {
    match op
    case Subscribe(subs, who) =>
      (match Walk(subs.topic)
       case None => m
       case Some(path) => m[(path, who) := subs.(topic := "")])
    case Unsubscribe(topic, from) =>
      (match Walk(topic)
       case None => m
       case Some(path) => map key | key in m && !(key.0 == path && (from == None || from == Some(key.1))) :: m[key])
  }

  function RunFlat(ops: seq<Op>): Table {
    if ops == [] then map[] else ApplyFlat(RunFlat(ops[..|ops| - 1]), ops[|ops| - 1])
  }

  function Held(m: Table, path: Path, who: Subscriber): Option<Sub> {
    if (path, who) in m then Some(m[(path, who)]) else None
  }

  /** After any run the trie holds exactly what the flat table holds. */
  lemma {:induction false} TrieIsIndex(ops: seq<Op>)
    ensures Sound(Run(ops))
    ensures forall path, who :: Lookup(Run(ops), path, who) == Held(RunFlat(ops), path, who)
  {
    if ops == [] {
    } else {
      var before, op := ops[..|ops| - 1], ops[|ops| - 1];
      TrieIsIndex(before);
      var t, m := Run(before), RunFlat(before);
      assert Run(ops) == Apply(t, op) && RunFlat(ops) == ApplyFlat(m, op);
      match op {
        case Subscribe(subs, who) => InsertSound(t, [], subs, who);
        case Unsubscribe(topic, from) => RemoveSound(t, [], topic, from);
      }
      forall path, v
        ensures Lookup(Run(ops), path, v) == Held(RunFlat(ops), path, v)
      {
        StepIsIndex(t, m, op, path, v);
      }
    }
  }

  lemma StepIsIndex(t: Store, m: Table, op: Op, path: Path, v: Subscriber)
    requires Sound(t)
    requires forall p, w :: Lookup(t, p, w) == Held(m, p, w)
    ensures Lookup(Apply(t, op), path, v) == Held(ApplyFlat(m, op), path, v)
  {
    assert Lookup(t, path, v) == Held(m, path, v);
    match op {
      case Subscribe(subs, who) =>
        InsertLookup(t, [], subs, who, path, v);
        assert forall levels: Path :: [] + levels == levels;
      case Unsubscribe(topic, from) =>
        RemoveLookup(t, [], topic, from, path, v);
        assert forall levels: Path :: [] + levels == levels;
        if SRemove(t, [], topic, from).Refused? && Walk(topic) == Some(path) && (from == None || from == Some(v)) {
          RefusedHoldsNothing(t, [], topic, from, path, v);
        }
    }
  }

  lemma {:induction false} RefusedHoldsNothing(t: Store, at: Path, topic: string, who: Option<Subscriber>,
                                               path: Path, v: Subscriber)
    requires at in t && Sound(t)
    requires SRemove(t, at, topic, who).Refused? && WalkFrom(at, topic) == Some(path)
    requires who == None || who == Some(v)
    ensures Lookup(t, path, v) == None
    decreases |topic|
  {
    if topic == "" {
      assert at + [] == at;
    } else {
      WalkStep(at, topic);
      var Level(level, rem) := NextLevel(topic);
      if at + [level] in t {
        RefusedHoldsNothing(t, at + [level], rem.GetOr(""), who, path, v);
      } else {
        NothingBelow(t, at + [level], Walk(rem.GetOr("")).value);
      }
    }
  }

  // ---------- reports ----------

  /** One subscription handed to the publisher; `path` is the filter it was stored under. */
  datatype Hit = Hit(path: Path, who: Subscriber, sub: Sub)

  /** The subscription as delivered: its QoS is the lower of published and granted. */
  function Deliver(sub: Sub, qos: nat): Sub {
    sub.(qos := if qos <= sub.qos then qos else sub.qos)
  }

  /** The filters below `at` reported for a topic. */
  predicate ReportedBelow(at: Path, path: Path, topic: string) {
    at <= path && PublishMatches(path[|at|..], topic)
  }

  /** The hits are the entries under these filters, each once. */
  ghost predicate IsReportOf(hits: seq<Hit>, t: Store, paths: iset<Path>, qos: nat) {
    && (forall i :: 0 <= i < |hits| ==> HitGood(hits[i], t, qos) && hits[i].path in paths)
    && Once(hits)
    && (forall path, who :: path in paths && Lookup(t, path, who).Some? ==> Reported(hits, path, who))
  }

  ghost function PathsBelow(at: Path, topic: string): iset<Path> {
    iset path | ReportedBelow(at, path, topic)
  }

  /** The hits are the matching entries of the trie from `at` down, each once. */
  ghost predicate IsReport(hits: seq<Hit>, t: Store, at: Path, topic: string, qos: nat) {
    IsReportOf(hits, t, PathsBelow(at, topic), qos)
  }

  predicate HitGood(hit: Hit, t: Store, qos: nat) {
    && Lookup(t, hit.path, hit.who).Some?
    && hit.sub == Deliver(Lookup(t, hit.path, hit.who).value, qos)
  }

  ghost predicate Once(hits: seq<Hit>) {
    forall i, j :: 0 <= i < j < |hits| ==> hits[i].path != hits[j].path || hits[i].who != hits[j].who
  }

  ghost predicate Reported(hits: seq<Hit>, path: Path, who: Subscriber) {
    exists i :: 0 <= i < |hits| && hits[i].path == path && hits[i].who == who
  }

  lemma JoinReports(a: seq<Hit>, b: seq<Hit>, t: Store, pathsA: iset<Path>, pathsB: iset<Path>, qos: nat)
    requires IsReportOf(a, t, pathsA, qos) && IsReportOf(b, t, pathsB, qos) && pathsA !! pathsB
    ensures IsReportOf(a + b, t, pathsA + pathsB, qos)
  {
    var hits := a + b;
    forall path, who | path in pathsA + pathsB && Lookup(t, path, who).Some?
      ensures Reported(hits, path, who)
    {
      if path in pathsA {
        var i :| 0 <= i < |a| && a[i].path == path && a[i].who == who;
        assert hits[i] == a[i];
      } else {
        var i :| 0 <= i < |b| && b[i].path == path && b[i].who == who;
        assert hits[|a| + i] == b[i];
      }
    }
  }

  /** Filters under which nothing is stored make no difference. */
  lemma SameReport(hits: seq<Hit>, t: Store, paths: iset<Path>, others: iset<Path>, qos: nat)
    requires IsReportOf(hits, t, paths, qos)
    requires forall path <- paths :: path in others
    requires forall path <- others :: path in paths || path !in t
    ensures IsReportOf(hits, t, others, qos)
  {
  }

  /** The table holds walked filters only. */
  lemma {:induction false} TableIsWalked(ops: seq<Op>)
    ensures forall key :: key in RunFlat(ops) ==> StoredPath(key.0)
  {
    if ops != [] {
      TableIsWalked(ops[..|ops| - 1]);
      var op := ops[|ops| - 1];
      if op.Subscribe? && Walk(op.subs.topic).Some? {
        WalkIsStored(op.subs.topic);
      }
    }
  }

  /** Every subscription reported is one of the table, with its QoS lowered to the one
      published if that is less and nothing else changed. */
  lemma HitsAreLowered(ops: seq<Op>, paths: iset<Path>, qos: nat, hits: seq<Hit>)
    requires IsReportOf(hits, Run(ops), paths, qos)
    ensures forall i :: 0 <= i < |hits| ==>
      && (hits[i].path, hits[i].who) in RunFlat(ops)
      && var given, sub := RunFlat(ops)[(hits[i].path, hits[i].who)], hits[i].sub;
        sub == given.(qos := sub.qos) && sub.qos <= qos && sub.qos <= given.qos && sub.qos in {qos, given.qos}
  {
    var t, m := Run(ops), RunFlat(ops);
    TrieIsIndex(ops);
    hide Run, RunFlat, Lookup;
    forall i | 0 <= i < |hits|
      ensures (hits[i].path, hits[i].who) in m
      ensures hits[i].sub == Deliver(m[(hits[i].path, hits[i].who)], qos)
    {
      assert HitGood(hits[i], t, qos);
      assert Lookup(t, hits[i].path, hits[i].who) == Held(m, hits[i].path, hits[i].who);
    }
  }

  /** After any run of subscriptions, a report for a topic lists exactly the stored pairs
      whose filter, as it was walked, matches the topic's levels, each once and with the
      lower QoS. */
  lemma ReportIsStandard(ops: seq<Op>, topic: string, qos: nat, hits: seq<Hit>)
    requires Walk(topic).Some?
    requires IsReport(hits, Run(ops), [], topic, qos)
    ensures Once(hits)
    ensures forall path, who :: Reported(hits, path, who) <==>
      (path, who) in RunFlat(ops) && MatchesCut(path, Split(topic))
    ensures forall i :: 0 <= i < |hits| ==>
      && (hits[i].path, hits[i].who) in RunFlat(ops)
      && var given, sub := RunFlat(ops)[(hits[i].path, hits[i].who)], hits[i].sub;
        sub == given.(qos := sub.qos) && sub.qos <= qos && sub.qos <= given.qos && sub.qos in {qos, given.qos}
  {
    var t, m := Run(ops), RunFlat(ops);
    TrieIsIndex(ops);
    TableIsWalked(ops);
    HitsAreLowered(ops, PathsBelow([], topic), qos, hits);
    hide MatchesCut;
    forall i | 0 <= i < |hits|
      ensures MatchesCut(hits[i].path, Split(topic))
    {
      assert Lookup(t, hits[i].path, hits[i].who) == Held(m, hits[i].path, hits[i].who);
      assert hits[i].path in PathsBelow([], topic);
      assert hits[i].path[0..] == hits[i].path;
      PublishDecidesStandard(hits[i].path, topic);
    }
    forall path, who | (path, who) in m && MatchesCut(path, Split(topic))
      ensures Reported(hits, path, who)
    {
      PublishDecidesStandard(path, topic);
      assert Lookup(t, path, who) == Held(m, path, who);
      assert path[0..] == path;
      assert path in PathsBelow([], topic);
    }
  }
}
