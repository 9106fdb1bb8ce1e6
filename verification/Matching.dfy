/**
 Bipartite graphs, matchings and vertex covers as plain values: the mathematics the
 matcher's documentation appeals to. Nothing here knows about the search itself.
 */
module Matching {

  type Pair = (int, int)

  /** Left nodes 0..lhs (elements), right nodes 0..rhs (matchers). */
  datatype Graph = Graph(lhs: nat, rhs: nat, edges: set<Pair>) {
    ghost predicate Valid() {
      forall e <- edges :: 0 <= e.0 < lhs && 0 <= e.1 < rhs
    }
  }

  /** Real edges, no shared endpoint. */
  ghost predicate IsMatching(g: Graph, m: set<Pair>) {
    && m <= g.edges
    && (forall p, q :: p in m && q in m && p.0 == q.0 ==> p == q)
    && (forall p, q :: p in m && q in m && p.1 == q.1 ==> p == q)
  }

  ghost predicate IsMaximum(g: Graph, m: set<Pair>) {
    IsMatching(g, m) && forall other :: IsMatching(g, other) ==> |other| <= |m|
  }

  /** Every edge touches a left node in `ls` or a right node in `rs`. */
  ghost predicate IsCover(g: Graph, ls: set<int>, rs: set<int>) {
    forall e <- g.edges :: e.0 in ls || e.1 in rs
  }

  /** Weak duality: no matching is larger than a vertex cover. */
  lemma {:induction false} CoverBoundsMatching(g: Graph, m: set<Pair>, ls: set<int>, rs: set<int>)
    requires IsMatching(g, m) && IsCover(g, ls, rs)
    ensures |m| <= |ls| + |rs|
    decreases |m|
  {
    if e :| e in m {
      var rest := Graph(g.lhs, g.rhs, m - {e});
      if e.0 in ls {
        CoverBoundsMatching(rest, m - {e}, ls - {e.0}, rs);
      } else {
        CoverBoundsMatching(rest, m - {e}, ls, rs - {e.1});
      }
    }
  }

  /** A matching as large as some cover is a maximum one. */
  lemma CoverIsMaximum(g: Graph, m: set<Pair>, ls: set<int>, rs: set<int>)
    requires IsMatching(g, m) && IsCover(g, ls, rs) && |m| == |ls| + |rs|
    ensures IsMaximum(g, m)
  {
    forall other | IsMatching(g, other) ensures |other| <= |m| {
      CoverBoundsMatching(g, other, ls, rs);
    }
  }

  lemma SubMatching(g: Graph, m: set<Pair>, part: set<Pair>)
    requires IsMatching(g, m) && part <= m
    ensures IsMatching(g, part)
  {
  }

  ghost function Lefts(m: set<Pair>): set<int> { set e <- m :: e.0 }

  ghost function Rights(m: set<Pair>): set<int> { set e <- m :: e.1 }

  /** A matching has as many left ends, and as many right ends, as edges. */
  lemma {:induction false} MatchingEnds(g: Graph, m: set<Pair>)
    requires IsMatching(g, m)
    ensures |Lefts(m)| == |m| == |Rights(m)|
    decreases |m|
  {
    if m == {} {
      assert Lefts(m) == {} == Rights(m);
    } else {
      var e :| e in m;
      MatchingEnds(g, m - {e});
      assert Lefts(m - {e}) == Lefts(m) - {e.0};
      assert Rights(m - {e}) == Rights(m) - {e.1};
    }
  }

  /** `f[j]` is the element assigned to matcher `j`; every matcher gets its own element. */
  ghost predicate IsPairing(g: Graph, f: seq<int>) {
    && |f| == g.rhs
    && (forall j :: 0 <= j < g.rhs ==> (f[j], j) in g.edges)
    && (forall i, j :: 0 <= i < j < g.rhs ==> f[i] != f[j])
  }

  ghost function PairsOf(f: seq<int>, n: nat): set<Pair>
    requires n <= |f|
  {
    set j | 0 <= j < n :: (f[j], j)
  }

  lemma {:induction false} PairingIsMatching(g: Graph, f: seq<int>, n: nat)
    requires IsPairing(g, f) && n <= g.rhs
    ensures IsMatching(g, PairsOf(f, n)) && |PairsOf(f, n)| == n
  {
    if n > 0 {
      PairingIsMatching(g, f, n - 1);
      var last := (f[n - 1], n - 1);
      assert PairsOf(f, n) == PairsOf(f, n - 1) + {last};
      assert last !in PairsOf(f, n - 1);
    } else {
      assert PairsOf(f, 0) == {};
    }
  }

  ghost function Range(n: nat): (s: set<int>)
    ensures forall k :: k in s <==> 0 <= k < n
    ensures |s| == n
  {
    if n == 0 then {} else Range(n - 1) + {n - 1}
  }

  ghost function LeftEnd(m: set<Pair>, j: int): int
    requires j in Rights(m)
    ensures (LeftEnd(m, j), j) in m
  {
    var e :| e in m && e.1 == j;
    e.0
  }

  /** A matching with one edge per matcher assigns every matcher its own element, and conversely. */
  lemma PerfectIffPairing(g: Graph, m: set<Pair>)
    requires g.Valid() && IsMaximum(g, m)
    ensures |m| == g.rhs <==> exists f :: IsPairing(g, f)
  {
    if |m| == g.rhs {
      MatchingEnds(g, m);
      SubsetOfSameSize(Rights(m), Range(g.rhs));
      var f := seq(g.rhs, j requires 0 <= j < g.rhs => LeftEnd(m, j));
      assert forall j :: 0 <= j < g.rhs ==> (f[j], j) in m;
      assert IsPairing(g, f);
    }
    if f :| IsPairing(g, f) {
      PairingIsMatching(g, f, g.rhs);
      MatchingEnds(g, m);
      SubsetSize(Rights(m), Range(g.rhs));
    }
  }

  lemma {:induction false} SubsetSize(a: set<int>, b: set<int>)
    requires a <= b
    ensures |a| <= |b|
  {
    assert b == a + (b - a);
  }

  lemma SubsetOfSameSize(a: set<int>, b: set<int>)
    requires a <= b && |a| == |b|
    ensures a == b
  {
    assert b == a + (b - a);
  }
}
