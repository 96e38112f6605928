/**
  Which filters match which topics: the relation of section 4.7 of MQTT Version 5.0, the
  relation decided when a message is published (smatch over stored filters) and the one
  decided when a client subscribes (rmatch over stored topics).
 */
module TopicMatch {
  import opened Options
  import opened TopicLevels

  /** Section 4.7.1: '+' stands for exactly one level, a final '#' for any number of them
      including none, every other level for itself. */
  predicate Matches(filter: seq<string>, topic: seq<string>) {
    var n := |filter|;
    if n > 0 && filter[n - 1] == MWC then
      && |topic| >= n - 1
      && forall i :: 0 <= i < n - 1 ==> filter[i] == SWC || filter[i] == topic[i]
    else
      && |topic| == n
      && forall i :: 0 <= i < n ==> filter[i] == SWC || filter[i] == topic[i]
  }

  /** The examples of sections 4.7.1.2 and 4.7.1.3. */
  lemma SectionExamples()
    ensures Matches(["sport", "#"], ["sport"]) && Matches(["sport", "#"], ["sport", "tennis", "player1"])
    ensures Matches(["#"], ["sport"]) && !Matches(["sport", "#"], ["finance"])
    ensures Matches(["sport", "+"], ["sport", "tennis"]) && Matches(["sport", "+"], ["sport", ""])
    ensures !Matches(["sport", "+"], ["sport"]) && !Matches(["sport", "+"], ["sport", "tennis", "player1"])
    ensures Matches(["+", "+"], ["", "finance"]) && Matches(["", "+"], ["", "finance"])
    ensures !Matches(["+"], ["", "finance"]) && Matches(["+", "tennis", "#"], ["sport", "tennis"])
  {
    assert ["sport"][0] != ["finance"][0];
  }

  /** Whether smatch, given `topic`, reports the subscriptions stored under `path`. The
      three paths tried at an exhausted topic are the node itself, its '#' and its '+'. */
  predicate PublishMatches(path: seq<string>, topic: string)
    decreases |topic|
  {
    if topic == "" then path == [] || path == [MWC] || path == [SWC]
    else
      match NextLevel(topic)
      case Malformed => false
      case Level(level, rem) =>
        && path != []
        && if path[0] == MWC then |path| == 1
           else
             && (path[0] == SWC || path[0] == level)
             && match rem
                case Some(r) => PublishMatches(path[1..], r)
                case None => path[1..] == [] || path[1..] == [MWC]
  }

  /** Whether rmatch, given `filter`, reports the message retained under `path`. */
  predicate RetainMatches(filter: string, path: seq<string>)
    decreases |filter|
  {
    if filter == "" then path == []
    else
      match NextLevel(filter)
      case Malformed => false
      case Level(level, rem) =>
        if level == MWC then true
        else
          && path != []
          && (level == SWC || path[0] == level)
          && RetainMatches(rem.GetOr(""), path[1..])
  }

  lemma MatchesStep(filter: seq<string>, topic: seq<string>)
    requires |filter| > 1 || (|filter| == 1 && filter[0] != MWC)
    requires |topic| > 0
    ensures Matches(filter, topic) <==>
      (filter[0] == SWC || filter[0] == topic[0]) && Matches(filter[1..], topic[1..])
  {
  }

  /** Matching for a topic whose final empty level may be left out, and for which nothing is
      looked for below that level, not even a '#'. */
  predicate MatchesCut(filter: seq<string>, topic: seq<string>) {
    if EndsEmpty(topic) then
      Matches(filter, topic[..|topic| - 1]) || (Matches(filter, topic) && |filter| <= |topic|)
    else Matches(filter, topic)
  }

  lemma MatchesCutEmpty(path: seq<string>)
    requires StoredPath(path)
    ensures MatchesCut(path, [""]) <==> path == [] || path == [MWC] || path == [SWC]
  {
    assert [""][..0] == [];
  }

  lemma MatchesCutStep(filter: seq<string>, first: string, rest: seq<string>)
    requires rest != [] && filter != [] && filter != [MWC]
    ensures MatchesCut(filter, [first] + rest) <==>
      (filter[0] == SWC || filter[0] == first) && MatchesCut(filter[1..], rest)
  {
    var topic := [first] + rest;
    assert topic[1..] == rest && topic[..|topic| - 1] == [first] + rest[..|rest| - 1];
    MatchesStep(filter, topic);
    MatchesStep(filter, [first] + rest[..|rest| - 1]);
  }

  /** Where the topic or the filter ends, or '#' comes. */
  lemma PublishDecidesEnd(path: seq<string>, topic: string)
    requires StoredPath(path) && Walk(topic).Some?
    requires topic == "" || path == [] || path[0] == MWC || FirstSeparator(topic) == |topic|
    ensures PublishMatches(path, topic) <==> MatchesCut(path, Split(topic))
  {
    assert topic[..|topic|] == topic;
    hide LevelAccepted;
    if topic == "" {
      MatchesCutEmpty(path);
    } else if path == [] {
      assert Split(topic)[0] == topic[..FirstSeparator(topic)];
    } else if path[0] != MWC {
      MatchesStep(path, [topic]);
      assert [topic][1..] == [];
    }
  }

  /** One level of the walk, with more to come. */
  lemma NextStep(topic: string)
    requires Walk(topic).Some? && FirstSeparator(topic) < |topic|
    ensures var k := FirstSeparator(topic);
      && NextLevel(topic) == Level(if k == 0 then SWC else topic[..k], Some(topic[k + 1..]))
      && Walk(topic[k + 1..]).Some? && Split(topic) == [topic[..k]] + Split(topic[k + 1..])
  {
    hide LevelAccepted;
  }

  lemma PublishStep(path: seq<string>, topic: string)
    requires StoredPath(path) && path != [] && path[0] != MWC
    requires Walk(topic).Some? && FirstSeparator(topic) < |topic|
    ensures StoredPath(path[1..])
    ensures var k := FirstSeparator(topic);
      PublishMatches(path, topic) <==>
        (path[0] == SWC || path[0] == topic[..k]) && PublishMatches(path[1..], topic[k + 1..])
  {
    NextStep(topic);
    var k := FirstSeparator(topic);
    assert path[0] != "" && (k == 0 ==> topic[..k] == "") && topic != "";
    hide NextLevel, Walk, Split;
  }

  /** Publishing decides section 4.7 on the pieces of the topic, except that a separator at
      its end also reports the filters of the topic without it and misses those that end in
      "/+/#" there. */
  lemma {:induction false} PublishDecidesStandard(path: seq<string>, topic: string)
    requires StoredPath(path) && Walk(topic).Some?
    ensures PublishMatches(path, topic) <==> MatchesCut(path, Split(topic))
    decreases |topic|
  {
    hide PublishMatches, Matches, MatchesCut, Walk, NextLevel, Split, StoredPath;
    var k := FirstSeparator(topic);
    if topic == "" || path == [] || path[0] == MWC || k == |topic| {
      PublishDecidesEnd(path, topic);
    } else {
      NextStep(topic);
      PublishStep(path, topic);
      PublishDecidesStandard(path[1..], topic[k + 1..]);
      MatchesCutStep(path, topic[..k], Split(topic[k + 1..]));
    }
  }

  /** Publishing meets section 4.7, for all stored filters, exactly on topics without a
      separator at their end. */
  lemma PublishMeetsStandard(topic: string)
    requires Walk(topic).Some?
    ensures (forall path :: StoredPath(path) ==> (PublishMatches(path, topic) <==> Matches(path, Split(topic))))
      <==> !EndsEmpty(Split(topic))
  {
    var pieces := Split(topic);
    forall path | StoredPath(path) ensures PublishMatches(path, topic) <==> MatchesCut(path, pieces) {
      PublishDecidesStandard(path, topic);
    }
    if EndsEmpty(pieces) {
      var path := Walk(topic).value;
      WalkReads(topic);
      WalkIsStored(topic);
      assert Matches(path, pieces[..|pieces| - 1]) && !Matches(path, pieces);
    }
  }

  /** Subscribing decides section 4.7 on the levels of the filter's walk. */
  lemma {:induction false} RetainDecidesStandard(filter: string, path: seq<string>)
    requires Walk(filter).Some?
    ensures RetainMatches(filter, path) <==> Matches(Walk(filter).value, path)
    decreases |filter|
  {
    if filter != "" {
      var Level(level, rem) := NextLevel(filter);
      var rest := Walk(rem.GetOr(""));
      assert Walk(filter).value == [level] + rest.value;
      RetainTail(filter);
      if path != [] && level != MWC {
        MatchesStep([level] + rest.value, path);
        RetainDecidesStandard(rem.GetOr(""), path[1..]);
      }
    }
  }

  /** Behind '#' nothing is left. */
  lemma RetainTail(filter: string)
    requires filter != "" && Walk(filter).Some?
    ensures var next := NextLevel(filter); next.level == MWC ==> next.rem == None
  {
  }

  /** Whether smatch of the cluster's node map, given `topic`, reports the groups stored under
      `path`. At an exhausted topic it tries the node itself and its '#'. */
  predicate NodeMatches(path: seq<string>, topic: string)
    decreases |topic|
  {
    if topic == "" then path == [] || path == [MWC]
    else
      match NextLevel(topic)
      case Malformed => false
      case Level(level, rem) =>
        && path != []
        && if path[0] == MWC then |path| == 1
           else (path[0] == SWC || path[0] == level) && NodeMatches(path[1..], rem.GetOr(""))
  }

  /** The node map decides section 4.7 on the levels of the topic's walk. */
  lemma {:induction false} NodeDecidesStandard(path: seq<string>, topic: string)
    requires StoredPath(path) && Walk(topic).Some?
    ensures NodeMatches(path, topic) <==> Matches(path, Walk(topic).value)
    decreases |topic|
  {
    if topic != "" {
      var Level(level, rem) := NextLevel(topic);
      var rest := Walk(rem.GetOr(""));
      assert Walk(topic).value == [level] + rest.value;
      if path != [] && path[0] != MWC {
        MatchesStep(path, [level] + rest.value);
        assert StoredPath(path[1..]);
        NodeDecidesStandard(path[1..], rem.GetOr(""));
      }
    }
  }

  /** The two directions of matching decide the same relation but for a topic with a
      separator at its end, whose message is retained without it. */
  lemma PublishAgreesWithRetain(filter: string, topic: string)
    requires Walk(filter).Some? && Walk(topic).Some?
    ensures var levels, pieces := Walk(filter).value, Split(topic);
      (PublishMatches(levels, topic) <==> RetainMatches(filter, Walk(topic).value)) <==>
      !EndsEmpty(pieces) || !Matches(levels, pieces) || |levels| > |pieces| || Matches(levels, pieces[..|pieces| - 1])
  {
    var levels, pieces := Walk(filter).value, Split(topic);
    WalkIsStored(filter);
    PublishDecidesStandard(levels, topic);
    RetainDecidesStandard(filter, Walk(topic).value);
    WalkReads(topic);
    EmptyReadsAny(levels, if EndsEmpty(pieces) then pieces[..|pieces| - 1] else pieces, Walk(topic).value);
  }

  /** To a stored filter an empty level of a topic is as good as a '+'. */
  lemma EmptyReadsAny(path: seq<string>, a: seq<string>, b: seq<string>)
    requires StoredPath(path) && |a| == |b|
    requires forall i :: 0 <= i < |a| ==> b[i] == if a[i] == "" then SWC else a[i]
    ensures Matches(path, a) <==> Matches(path, b)
  {
  }

  /** A filter is answered as section 4.7 asks, for all topics without empty levels, exactly
      when it has no empty level itself. */
  lemma FilterReadAsWritten(filter: string)
    requires Walk(filter).Some?
    ensures (forall topic :: NoEmpty(topic) ==> (Matches(Walk(filter).value, topic) <==> Matches(Split(filter), topic)))
      <==> NoEmpty(Split(filter))
  {
    WalkReads(filter);
    WalkIsSplit(filter);
    var pieces := Split(filter);
    if !NoEmpty(pieces) {
      var topic := Named(Effective(pieces));
      NamedMatches(Effective(pieces));
      EmptyMatchesNone(pieces, topic);
    }
  }

  /** A topic that a filter matches, with names for its wildcards. */
  function Named(levels: seq<string>): seq<string> {
    seq(|levels|, i requires 0 <= i < |levels| => if levels[i] == SWC || levels[i] == MWC then "x" else levels[i])
  }

  lemma NamedMatches(levels: seq<string>)
    requires StoredPath(levels)
    ensures NoEmpty(Named(levels)) && Matches(levels, Named(levels))
  {
  }

  lemma EmptyMatchesNone(pieces: seq<string>, topic: seq<string>)
    requires Cuttable(pieces) && !NoEmpty(pieces) && NoEmpty(topic) && |topic| == |Effective(pieces)|
    ensures !Matches(pieces, topic)
  {
  }

  /** Publishing "a/" reports the filter "a", which does not match it, and misses "a/+/#",
      which does. */
  lemma TrailingSeparator()
    ensures PublishMatches(["a"], "a/") && !Matches(["a"], Split("a/"))
    ensures !PublishMatches(["a", "+", "#"], "a/") && Matches(["a", "+", "#"], Split("a/"))
  {
    FirstSeparatorIsFirst("a/", 1);
    assert "a/"[..1] == "a" && "a/"[2..] == "";
    assert NextLevel("a/") == Level("a", Some(""));
    assert ["a"][1..] == [] && ["a", "+", "#"][1..] == ["+", "#"];
    assert Split("") == [""] && Split("a/") == ["a", ""];
  }
}
