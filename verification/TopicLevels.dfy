/**
  Topic levels: how memtopics.go cuts a topic or filter into levels, one level at a time,
  and how MQTT Version 5.0 section 4.7 says a topic is built. A topic is a string whose
  characters stand for the source's bytes.
 */
module TopicLevels {
  import opened Options

  const MWC := "#"
  const SWC := "+"

  /** One step of the cut. `rem` is None where the Go code returns a nil remainder (no
      separator was met) and Some where it returns a slice, possibly an empty one. */
  datatype Next = Malformed | Level(level: string, rem: Option<string>)

  datatype ScanState = StateCHR | StateMWC | StateSWC | StateSYS

  predicate IsWildcard(c: char) {
    c == '#' || c == '+'
  }

  /** The position of the first separator, or the length of the topic. */
  function FirstSeparator(topic: string): (k: nat)
    ensures k <= |topic|
    ensures k < |topic| ==> topic[k] == '/'
    ensures forall i :: 0 <= i < k ==> topic[i] != '/'
  {
    if topic == "" || topic[0] == '/' then 0
    else 1 + FirstSeparator(topic[1..])
  }

  /** Which strings the scan accepts as one level: no leading '$', no wildcard after the
      first character, and after a leading wildcard nothing, or a '$'. */
  predicate LevelAccepted(level: string) {
    && (|level| > 0 ==> level[0] != '$')
    && (forall i :: 0 < i < |level| ==> !IsWildcard(level[i]))
    && (|level| > 1 && IsWildcard(level[0]) ==> level[1] == '$')
  }

  /** What nextTopicLevel returns, without its scan. */
  function NextLevel(topic: string): Next {
    var k := FirstSeparator(topic);
    var level := topic[..k];
    if !LevelAccepted(level) || (k < |topic| && level == MWC) then Malformed
    else if k == |topic| then Level(level, None)
    else if k == 0 then Level(SWC, Some(topic[1..]))
    else Level(level, Some(topic[k + 1..]))
  }

  /** Which cuts fail, character by character, and what the others give. */
  lemma CutReads(topic: string)
    ensures var k, r := FirstSeparator(topic), NextLevel(topic);
      && (r.Malformed? <==>
          || (k > 0 && topic[0] == '$')
          || (exists i :: 0 < i < k && (topic[i] == '#' || topic[i] == '+'))
          || (k > 1 && (topic[0] == '#' || topic[0] == '+') && topic[1] != '$')
          || (k == 1 < |topic| && topic[0] == '#'))
      && (r.Level? ==> r.level == if k == 0 < |topic| then "+" else topic[..k])
      && (r.Level? ==> r.rem == if k < |topic| then Some(topic[k + 1..]) else None)
  {
    AcceptedReads(topic, FirstSeparator(topic));
    hide LevelAccepted, FirstSeparator;
  }

  lemma AcceptedReads(topic: string, k: nat)
    requires k <= |topic|
    ensures LevelAccepted(topic[..k]) <==>
      && !(k > 0 && topic[0] == '$')
      && !(exists i :: 0 < i < k && (topic[i] == '#' || topic[i] == '+'))
      && !(k > 1 && (topic[0] == '#' || topic[0] == '+') && topic[1] != '$')
    ensures topic[..k] == MWC <==> k == 1 && topic[0] == '#'
  {
    var level := topic[..k];
    assert forall i :: 0 <= i < k ==> level[i] == topic[i];
    assert k == 1 && topic[0] == '#' ==> level == MWC;
  }

  /** The scan state after an accepted piece of a level. */
  function StateAfter(piece: string): ScanState {
    if piece == "" then StateCHR
    else if piece == MWC then StateMWC
    else if piece == SWC then StateSWC
    else if piece[|piece| - 1] == '$' then StateSYS
    else StateCHR
  }

  lemma FirstSeparatorIsFirst(topic: string, k: nat)
    requires k <= |topic| && forall i :: 0 <= i < k ==> topic[i] != '/'
    requires k < |topic| ==> topic[k] == '/'
    ensures FirstSeparator(topic) == k
  {
  }

  lemma AcceptedPrefix(level: string, i: nat)
    requires i <= |level| && !LevelAccepted(level[..i])
    ensures !LevelAccepted(level)
  {
  }

  /** The scan of nextTopicLevel, with its state variable. */
  method NextTopicLevel(topic: string) returns (r: Next)
    ensures r == NextLevel(topic)
  {
    var s := StateCHR;
    for i := 0 to |topic|
      invariant forall j :: 0 <= j < i ==> topic[j] != '/'
      invariant LevelAccepted(topic[..i]) && s == StateAfter(topic[..i])
    {
      var c := topic[i];
      ghost var piece := topic[..i + 1];
      ghost var k := FirstSeparator(topic);
      if c == '/' {
        FirstSeparatorIsFirst(topic, i);
        if s == StateMWC {
          return Malformed;
        }
        if i == 0 {
          return Level(SWC, Some(topic[i + 1..]));
        }
        return Level(topic[..i], Some(topic[i + 1..]));
      }
      assert i + 1 <= k && topic[..k][..i + 1] == piece;
      assert forall j :: 0 <= j < i ==> piece[j] == topic[..i][j];
      if c == '#' {
        if i != 0 {
          assert IsWildcard(piece[i]);
          AcceptedPrefix(topic[..k], i + 1);
          return Malformed;
        }
        s := StateMWC;
      } else if c == '+' {
        if i != 0 {
          assert IsWildcard(piece[i]);
          AcceptedPrefix(topic[..k], i + 1);
          return Malformed;
        }
        s := StateSWC;
      } else if c == '$' {
        if i == 0 {
          AcceptedPrefix(topic[..k], i + 1);
          return Malformed;
        }
        s := StateSYS;
      } else {
        if s == StateMWC || s == StateSWC {
          assert i == 1 && IsWildcard(piece[0]) && piece[1] != '$';
          AcceptedPrefix(topic[..k], i + 1);
          return Malformed;
        }
        s := StateCHR;
      }
    }
    assert topic[..|topic|] == topic;
    FirstSeparatorIsFirst(topic, |topic|);
    return Level(topic, None);
  }

  /** The levels met by cutting again and again until nothing is left, as every recursive
      walk of a trie does; None when a cut fails. */
  function Walk(topic: string): Option<seq<string>>
    decreases |topic|
  {
    if topic == "" then Some([])
    else
      match NextLevel(topic)
      case Malformed => None
      case Level(level, None) => Some([level])
      case Level(level, Some(rem)) =>
        match Walk(rem)
        case None => None
        case Some(levels) => Some([level] + levels)
  }

  /** The levels of a topic as section 4.7 reads it: the pieces between separators. */
  function Split(topic: string): (levels: seq<string>)
    ensures |levels| > 0
    decreases |topic|
  {
    var k := FirstSeparator(topic);
    if k == |topic| then [topic]
    else [topic[..k]] + Split(topic[k + 1..])
  }

  /** Which pieces the walk accepts: '#' alone only at the end, and none led by '$', which
      section 4.7.2 asks of the first one only. */
  predicate Cuttable(levels: seq<string>) {
    forall i :: 0 <= i < |levels| ==> LevelAccepted(levels[i]) && (levels[i] == MWC ==> i == |levels| - 1)
  }

  predicate EndsEmpty(levels: seq<string>) {
    levels != [] && levels[|levels| - 1] == ""
  }

  predicate NoEmpty(levels: seq<string>) {
    forall i :: 0 <= i < |levels| ==> levels[i] != ""
  }

  /** What the walk makes of the pieces: an empty one counts as '+', or at the end as none. */
  function Effective(levels: seq<string>): seq<string> {
    var n := if EndsEmpty(levels) then |levels| - 1 else |levels|;
    seq(n, i requires 0 <= i < n => if levels[i] == "" then SWC else levels[i])
  }

  lemma CuttableStep(first: string, rest: seq<string>)
    requires rest != []
    ensures Cuttable([first] + rest) <==> LevelAccepted(first) && first != MWC && Cuttable(rest)
  {
    hide LevelAccepted;
    var levels := [first] + rest;
    assert levels[0] == first && levels[1..] == rest;
    if Cuttable(levels) {
      forall i | 0 <= i < |rest| ensures LevelAccepted(rest[i]) && (rest[i] == MWC ==> i == |rest| - 1) {
        assert rest[i] == levels[i + 1];
      }
    }
  }

  lemma EffectiveStep(first: string, rest: seq<string>)
    requires rest != []
    ensures Effective([first] + rest) == [if first == "" then SWC else first] + Effective(rest)
  {
  }

  /** The walk of every topic or filter: the pieces of the standard with the empty ones
      replaced, if they can be cut. */
  lemma {:induction false} WalkReads(topic: string)
    ensures Walk(topic) == if Cuttable(Split(topic)) then Some(Effective(Split(topic))) else None
    decreases |topic|
  {
    hide LevelAccepted;
    var k := FirstSeparator(topic);
    assert topic[..|topic|] == topic;
    if k == |topic| {
      assert LevelAccepted("") by { EmptyAccepted(); }
      assert Split(topic)[0] == topic;
      assert Effective([topic]) == if topic == "" then [] else [topic];
    } else {
      var rem := topic[k + 1..];
      WalkReads(rem);
      CuttableStep(topic[..k], Split(rem));
      EffectiveStep(topic[..k], Split(rem));
    }
  }

  lemma EmptyAccepted()
    ensures LevelAccepted("")
  {
  }

  /** The walk yields the levels of the standard exactly on these: none of them empty. */
  lemma WalkIsSplit(topic: string)
    ensures Walk(topic) == Some(Split(topic)) <==> Cuttable(Split(topic)) && NoEmpty(Split(topic))
  {
    hide Cuttable;
    WalkReads(topic);
    var levels := Split(topic);
    if Effective(levels) == levels {
      assert forall i :: 0 <= i < |levels| ==> Effective(levels)[i] == levels[i];
    }
  }

  /** What tries hold: levels that are not empty, '#' only at the end. */
  predicate StoredPath(path: seq<string>) {
    forall i :: 0 <= i < |path| ==> path[i] != "" && (path[i] == MWC ==> i == |path| - 1)
  }

  lemma WalkIsStored(topic: string)
    requires Walk(topic).Some?
    ensures StoredPath(Walk(topic).value)
  {
    WalkReads(topic);
  }
}
