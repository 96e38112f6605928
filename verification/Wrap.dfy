/** Index arithmetic of rings. */
module Wrap {
  import opened Bits

  lemma SlotsApart(size: nat, i: nat, j: nat)
    requires size > 0 && i < j < i + size
    ensures i % size != j % size
  {
    if i % size == j % size {
      var q := j / size - i / size;
      assert j - i == size * q;
      NoMultipleBetween(size, q);
    }
  }

  lemma WrapIndex(size: nat, start: nat, j: nat)
    requires start < size && j < size
    ensures (start + j) % size == if start + j < size then start + j else start + j - size
  {
  }

  lemma InPlace(size: nat, pos: nat, j: nat)
    requires size > 0 && j < size
    ensures (pos + j) % size == if pos % size + j < size then pos % size + j else pos % size + j - size
  {
    var at := pos % size;
    WrapIndex(size, at, j);
    var q := pos / size;
    assert pos == size * q + at;
    if at + j < size {
      RemainderUnique(pos + j, size, q, at + j);
    } else {
      assert size * (q + 1) == size * q + size;
      RemainderUnique(pos + j, size, q + 1, at + j - size);
    }
  }

  /** The n entries standing in a ring from a position on. */
  function Around<T>(ring: seq<T>, pos: nat, n: nat): seq<T>
    requires |ring| > 0
  {
    seq(n, j requires 0 <= j < n => ring[(pos + j) % |ring|])
  }

  /** As one piece of the ring, or two. */
  lemma AroundPieces<T>(ring: seq<T>, pos: nat, n: nat)
    requires n <= |ring| && |ring| > 0
    ensures var at := pos % |ring|;
      Around(ring, pos, n) == if at + n <= |ring| then ring[at..at + n] else ring[at..] + ring[..at + n - |ring|]
  {
    var size, b := |ring|, Around(ring, pos, n);
    var at := pos % size;
    if at + n <= size {
      forall j | 0 <= j < n ensures b[j] == ring[at..at + n][j] { InPlace(size, pos, j); }
    } else {
      forall j | 0 <= j < n ensures b[j] == (ring[at..] + ring[..at + n - size])[j] { InPlace(size, pos, j); }
    }
  }
}
