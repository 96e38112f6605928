/**
  memTopics of memtopics.go: the two tries behind one object, with the history of the calls
  that reached them.
 */
module MemTopicsManager {
  import opened Options
  import opened Paths
  import opened TopicLevels
  import opened TopicMatch
  import opened SubTrie
  import opened SNodes
  import opened HeldMessage
  import RetainTrie
  import opened RetainTypes = RetainTrie
  import RNodes

  const QOS_FAILURE := 0x80
  const SYS_PREFIX := "$sys/"
  const SHARE_PREFIX := "$share/"

  predicate ValidQos(qos: nat) {
    qos <= 2
  }

  /** The filters that go to the system and shared tries instead. */
  predicate GoesElsewhere(topic: string) {
    || (|topic| > |SYS_PREFIX| && SYS_PREFIX <= topic)
    || (|topic| > |SHARE_PREFIX| && SHARE_PREFIX <= topic)
  }

  lemma FreshSRoot(s: SNode)
    requires s.path == [] && s.subs == [] && s.qos == [] && s.snodes == map[]
    ensures s.At(map[[] := s], Run([]))
  {
  }

  lemma FreshRRoot(r: RNodes.RNode)
    requires r.path == [] && r.msg == None && r.rnodes == map[]
    ensures r.At(map[[] := r], RRun([]))
  {
  }

  lemma Spread(subs: seq<Subscriber>, qoss: seq<Sub>, hits: seq<Hit>)
    requires subs == [] + WhosOf(hits) && qoss == [] + SubsOf(hits)
    ensures |subs| == |qoss| == |hits|
    ensures forall i :: 0 <= i < |hits| ==> subs[i] == hits[i].who && qoss[i] == hits[i].sub
  {
  }

  lemma RunOneMore(ops: seq<Op>, op: Op)
    ensures Run(ops + [op]) == Apply(Run(ops), op)
  {
  }

  lemma RRunOneMore(ops: seq<ROp>, op: ROp)
    ensures RRun(ops + [op]) == RApply(RRun(ops), op)
  {
  }

  class MemTopics {
    var sroot: SNode
    var rroot: RNodes.RNode
    ghost var snodes: Index
    ghost var rnodes: RNodes.RIndex
    ghost var ops: seq<Op>
    ghost var rops: seq<ROp>

    /** The tries hold what the calls so far have made. */
    ghost predicate Valid()
      reads this, snodes.Values, rnodes.Values
    {
      SubsValid() && RetainValid()
    }

    ghost predicate SubsValid()
      reads this, snodes.Values
    {
      sroot.path == [] && sroot.At(snodes, Run(ops))
    }

    ghost predicate RetainValid()
      reads this, rnodes.Values
    {
      rroot.path == [] && rroot.At(rnodes, RRun(rops))
    }

    constructor ()
      ensures Valid() && ops == [] && rops == []
      ensures fresh(snodes.Values) && fresh(rnodes.Values)
    {
      var s := new SNode([]);
      var r := new RNodes.RNode([]);
      sroot, rroot := s, r;
      snodes, rnodes := map[[] := s], map[[] := r];
      ops, rops := [], [];
      new;
      FreshSRoot(s);
      FreshRRoot(r);
    }

    method Subscribe(subs: Sub, sub: Option<Subscriber>) returns (code: nat, err: bool)
      requires Valid() && !GoesElsewhere(subs.topic)
      modifies this`snodes, this`ops, snodes.Values
      ensures Valid() && rops == old(rops)
      ensures forall p <- snodes :: (p in old(snodes) && snodes[p] == old(snodes)[p]) || fresh(snodes[p])
      ensures err <==> subs.qos > 2 || sub == None || Walk(subs.topic) == None
      ensures code == if err then 0x80 else subs.qos
      ensures ops == if subs.qos <= 2 && sub.Some? then old(ops) + [Op.Subscribe(subs, sub.value)] else old(ops)
    {
      hide SNode.At, RNodes.RNode.At, Run, RRun;
      if !ValidQos(subs.qos) {
        return QOS_FAILURE, true;
      }
      if sub == None {
        return QOS_FAILURE, true;
      }
      err, snodes := sroot.SInsert(subs, sub.value, snodes, Run(ops));
      ops := ops + [Op.Subscribe(subs, sub.value)];
      RunOneMore(old(ops), Op.Subscribe(subs, sub.value));
      return if err then QOS_FAILURE else subs.qos, err;
    }

    method Unsubscribe(topic: string, sub: Option<Subscriber>) returns (err: bool)
      requires Valid() && !GoesElsewhere(topic)
      modifies this`snodes, this`ops, snodes.Values
      ensures Valid() && rops == old(rops)
      ensures forall p <- snodes :: p in old(snodes) && snodes[p] == old(snodes)[p]
      ensures ops == old(ops) + [Op.Unsubscribe(topic, sub)]
      ensures sub.Some? ==>
        (err <==> Walk(topic) == None || (Walk(topic).value, sub.value) !in SubTrie.RunFlat(old(ops)))
    {
      hide SNode.At, RNodes.RNode.At, Run, RRun;
      TrieIsIndex(ops);
      if sub.Some? {
        RemoveSucceeds(Run(ops), [], topic, sub.value);
        assert forall levels: Path :: [] + levels == levels;
      }
      err, snodes := sroot.SRemove(topic, sub, snodes, Run(ops));
      ops := ops + [Op.Unsubscribe(topic, sub)];
      RunOneMore(old(ops), Op.Unsubscribe(topic, sub));
    }

    /** The subscribers of a client's message, shared subscriptions aside. */
    method Subscribers(topic: string, qos: nat, out: Matched) returns (err: bool, ghost hits: seq<Hit>)
      requires Valid()
      modifies out
      ensures Valid()
      ensures err ==> qos > 2 || Walk(topic) == None
      ensures qos > 2 || (topic != "" && topic[0] == '$') ==> err
      ensures !err ==> out.Grown([], [], hits) && IsReport(hits, Run(ops), [], topic, qos)
      ensures !err ==> |out.subs| == |out.qoss| == |hits|
      ensures !err ==> forall i :: 0 <= i < |hits| ==> out.subs[i] == hits[i].who && out.qoss[i] == hits[i].sub
      ensures !err ==> forall i :: 0 <= i < |hits| ==>
        && (hits[i].path, hits[i].who) in SubTrie.RunFlat(ops)
        && var given, sub := SubTrie.RunFlat(ops)[(hits[i].path, hits[i].who)], out.qoss[i];
          sub == given.(qos := sub.qos) && sub.qos <= qos && sub.qos <= given.qos && sub.qos in {qos, given.qos}
      ensures !err && Walk(topic).Some? ==>
        && Once(hits)
        && forall path, who :: Reported(hits, path, who) <==>
          (path, who) in SubTrie.RunFlat(ops) && MatchesCut(path, Split(topic))
    {
      hide SNode.At, RNodes.RNode.At, Run, RRun, Walk;
      hits := [];
      if !ValidQos(qos) {
        return true, [];
      }
      if |topic| > 0 && topic[0] == '$' {
        DollarFails(topic);
        return true, [];
      }
      TrieIsIndex(ops);
      out.subs, out.qoss := [], [];
      err, hits := sroot.SMatch(topic, qos, out, snodes, Run(ops));
      if !err {
        HitsAreLowered(ops, PathsBelow([], topic), qos, hits);
        Spread(out.subs, out.qoss, hits);
      }
      if !err && Walk(topic).Some? {
        ReportIsStandard(ops, topic, qos, hits);
      }
    }

    /** Stores a message under its topic, or, when its payload is empty, clears the topic.
        A clear fails exactly when there is no node to clear. */
    method Retain(msg: Message) returns (r: Outcome)
      requires Valid() && Ready(msg)
      modifies this`rnodes, this`rops, rnodes.Values
      ensures Valid() && ops == old(ops)
      ensures forall p <- rnodes :: (p in old(rnodes) && rnodes[p] == old(rnodes)[p]) || fresh(rnodes[p])
      ensures rops == old(rops) + [RetainOp(msg)]
      ensures msg.pub.payload != [] ==> r == InsertOutcome(RRun(old(rops)), [], TopicOf(msg), msg)
      ensures msg.pub.payload == [] ==>
        r == if Walk(TopicOf(msg)).Some? && Walk(TopicOf(msg)).value in RRun(old(rops)) then Done else Outcome.Refused
      ensures forall name :: Spells(name, msg.pub.topic) ==>
        TopicOf(msg) == name && rops == old(rops) + [if msg.pub.payload == [] then Clear(name) else Store(msg)]
    {
      hide SNode.At, RNodes.RNode.At, Run, RRun, Walk, Ready, InsertOutcome;
      hide TopicOf, RetainTrie.RInsert, RRemove;
      RRunOneMore(rops, RetainOp(msg));
      if |msg.pub.payload| == 0 {
        var err;
        FindsNode(rops, TopicOf(msg));
        err, rnodes := rroot.RRemove(TopicOf(msg), rnodes, RRun(rops));
        r := if err then Outcome.Refused else Done;
      } else {
        r, rnodes := rroot.RInsert(TopicOf(msg), msg, rnodes, RRun(rops));
      }
      rops := rops + [RetainOp(msg)];
      forall name | Spells(name, msg.pub.topic) ensures TopicOf(msg) == name {
        NameIsTopic(name, msg);
      }
    }

    method Retained(topic: string, out: RNodes.RMatched) returns (err: bool, ghost hits: seq<RHit>)
      requires Valid()
      modifies out
      ensures Valid()
      ensures err ==> Walk(topic) == None
      ensures out.Grown(old(out.msgs), hits)
      ensures !err ==> RReportOf(hits, RRun(rops), RetainedPaths([], topic))
      ensures Walk(topic).Some? && Gentle(rops) ==>
        && (forall path :: RReported(hits, path) <==>
          path in RetainTrie.RunFlat(rops) && Matches(Walk(topic).value, path))
        && (forall i :: 0 <= i < |hits| ==>
              hits[i].path in RetainTrie.RunFlat(rops) && hits[i].msg == RetainTrie.RunFlat(rops)[hits[i].path])
    {
      hide SNode.At, RNodes.RNode.At, Run, RRun, Walk;
      RunRooted(rops);
      err, hits := rroot.RMatch(topic, out, rnodes, RRun(rops));
      if Walk(topic).Some? && Gentle(rops) {
        RetainReportIsStandard(rops, topic, hits);
      }
    }
  }

  /** What Retain does with a message. */
  function RetainOp(msg: Message): ROp {
    if msg.pub.payload == [] then Clear(TopicOf(msg)) else Store(msg)
  }

  lemma FindsNode(rops: seq<ROp>, topic: string)
    ensures RRemove(RRun(rops), [], topic).NotFound? <==> Walk(topic) == None || Walk(topic).value !in RRun(rops)
  {
    RunRooted(rops);
    RemoveFinds(RRun(rops), [], topic);
    assert forall levels: Path :: [] + levels == levels;
  }

  lemma DollarFails(topic: string)
    requires |topic| > 0 && topic[0] == '$'
    ensures Walk(topic) == None
  {
  }
}
