/**
  Places in a trie: the levels leading to a node, and the place a topic's walk leads to.
 */
module Paths {
  import opened Options
  import opened TopicLevels

  type Path = seq<string>

  /** The levels leading to a child. */
  function Child(p: Path, k: string): Path {
    p + [k]
  }

  lemma SnocEqual(p: Path, k: string, q: Path, l: string)
    ensures p + [k] == q + [l] <==> p == q && k == l
  {
    if p + [k] == q + [l] {
      assert p == (p + [k])[..|p|] == (q + [l])[..|q|] == q;
      assert k == (p + [k])[|p|] == (q + [l])[|q|];
    }
  }

  /** The walk from a node: the levels of the topic put below `at`. */
  function WalkFrom(at: Path, topic: string): Option<Path> {
    match Walk(topic)
    case None => None
    case Some(levels) => Some(at + levels)
  }

  lemma WalkStep(at: Path, topic: string)
    requires topic != "" && NextLevel(topic).Level?
    ensures WalkFrom(at, topic) == WalkFrom(at + [NextLevel(topic).level], NextLevel(topic).rem.GetOr(""))
    ensures |NextLevel(topic).rem.GetOr("")| < |topic|
  {
    var level := NextLevel(topic).level;
    var rest := Walk(NextLevel(topic).rem.GetOr(""));
    if rest.Some? {
      assert [level] + [] == [level];
      assert Walk(topic) == Some([level] + rest.value);
      assert at + ([level] + rest.value) == at + [level] + rest.value;
    }
  }

  /** Below what is no node there is no node. */
  lemma {:induction false} NothingBelow<V>(t: map<Path, V>, at: Path, rest: Path)
    requires (forall p, k :: p + [k] in t ==> p in t) && at !in t
    ensures at + rest !in t
  {
    if rest == [] {
      assert at + rest == at;
    } else {
      var n := |rest| - 1;
      NothingBelow(t, at, rest[..n]);
      assert at + rest == (at + rest[..n]) + [rest[n]];
    }
  }
}
