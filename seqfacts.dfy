/** Facts about sequences that the row proofs use to take rows apart and put
    them back together: concatenation, prefixes and positions. */
module SeqFacts {
  lemma Assoc<T>(x: seq<T>, y: seq<T>, z: seq<T>)
    ensures (x + y) + z == x + (y + z)
  {
  }

  /** An element of a non-empty sequence is in its prefix or is its last
      element. */
  lemma MemberInit<T>(xs: seq<T>, m: T)
    requires xs != []
    ensures m in xs <==> m in xs[..|xs| - 1] || m == xs[|xs| - 1]
  {
    assert xs == xs[..|xs| - 1] + [xs[|xs| - 1]];
  }

  /** Dropping the last element of a + b, for a non-empty b. */
  lemma AppendInit<T>(a: seq<T>, b: seq<T>)
    requires b != []
    ensures (a + b)[..|a + b| - 1] == a + b[..|b| - 1]
    ensures (a + b)[|a + b| - 1] == b[|b| - 1]
  {
  }

  lemma Single<T>(x: T)
    ensures [x][..0] == [] && [x][0] == x
  {
  }

  lemma Cons2<T>(a: T, b: T)
    ensures [a] + [b] == [a, b]
  {
  }

  lemma Cons3<T>(a: T, b: T, c: T)
    ensures [a] + [b, c] == [a, b, c]
  {
  }

  lemma Cons4<T>(a: T, b: T, c: T, d: T)
    ensures [a] + [b, c, d] == [a, b, c, d]
  {
  }

  lemma Cons5<T>(a: T, b: T, c: T, d: T, e: T)
    ensures [a] + [b, c, d, e] == [a, b, c, d, e]
  {
  }

  /** What follows one element and a run x is the rest. */
  lemma DropHead<T>(u: T, x: seq<T>, y: seq<T>)
    ensures ([u] + x + y)[1 + |x|..] == y
  {
  }

  /** The element after one element and j elements of x. */
  lemma IndexMid<T>(u: T, x: seq<T>, y: seq<T>, j: nat)
    requires j < |x|
    ensures ([u] + x + y)[1 + j] == x[j]
  {
  }

  /** Positions in a sequence made of one element, a pair, a run d, and one
      more element. */
  lemma Positions4<T>(r: seq<T>, u: T, p: seq<T>, d: seq<T>, l: seq<T>)
    requires r == [u] + (p + d) + l && |p| == 2 && |l| == 1
    ensures |r| == 4 + |d| && r[0] == u && r[1] == p[0] && r[2] == p[1]
    ensures r[3 + |d|] == l[0]
  {
  }

  lemma IndexAfterPair<T>(u: T, p: seq<T>, d: seq<T>, l: seq<T>, j: nat)
    requires |p| == 2 && j < |d|
    ensures ([u] + (p + d) + l)[3 + j] == d[j]
  {
  }

  lemma Singleton<T>(xs: seq<T>)
    requires |xs| == 1
    ensures xs == [xs[0]]
  {
  }

  /** A longer prefix is the shorter one and the next element. */
  lemma TakeSnoc<T>(xs: seq<T>, i: nat)
    requires i < |xs|
    ensures xs[..i + 1] == xs[..i] + [xs[i]]
    ensures xs[..i + 1][..i] == xs[..i]
  {
  }

  /** The whole sequence is its longest prefix. */
  lemma TakeAll<T>(xs: seq<T>)
    ensures xs[..|xs|] == xs
  {
  }

  /** Positions in a sequence made of one element, a single-element run, and
      the rest. */
  lemma ThreePieces<T>(r: seq<T>, u: T, ce: seq<T>, de: seq<T>)
    requires |ce| == 1 && r == [u] + ce + de
    ensures |r| == 2 + |de| && r[0] == u && r[1] == ce[0]
    ensures forall j :: 0 <= j < |de| ==> r[2 + j] == de[j]
  {
  }
}
