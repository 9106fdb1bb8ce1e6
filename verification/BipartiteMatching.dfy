/**
 gmock's MaxBipartiteMatchState: a Ford-Fulkerson search over two arrays that refer to each
 other. The model keeps the arrays, the recursion and the shared `seen` array.
 */
module BipartiteMatching {
  import opened BinaryCounter
  import opened Matching

  /** size_t(-1) in the original. */
  const UNUSED := -1

  /** The connectivity matrix, flattened in element-major order. */
  class MatchMatrix {
    const numElements: nat
    const numMatchers: nat
    const matched: array<bool>

    ghost predicate Valid() reads this {
      matched.Length == numElements * numMatchers
    }

    constructor (numElements: nat, numMatchers: nat)
      ensures Valid() && fresh(matched)
      ensures this.numElements == numElements && this.numMatchers == numMatchers
      ensures forall k :: 0 <= k < matched.Length ==> !matched[k]
    {
      this.numElements := numElements;
      this.numMatchers := numMatchers;
      this.matched := new bool[numElements * numMatchers](_ => false);
    }

    function SpaceIndex(ilhs: nat, irhs: nat): (k: nat)
      requires Valid() && ilhs < numElements && irhs < numMatchers
      reads this
      ensures k < matched.Length
    {
      IndexInRange(ilhs, irhs, numElements, numMatchers);
      ilhs * numMatchers + irhs
    }

    predicate HasEdge(ilhs: nat, irhs: nat)
      requires Valid() && ilhs < numElements && irhs < numMatchers
      reads this, matched
    {
      matched[SpaceIndex(ilhs, irhs)]
    }

    method SetEdge(ilhs: nat, irhs: nat, b: bool)
      requires Valid() && ilhs < numElements && irhs < numMatchers
      modifies matched
      ensures forall i: nat, j: nat :: i < numElements && j < numMatchers ==>
        HasEdge(i, j) == if i == ilhs && j == irhs then b else old(HasEdge(i, j))
    {
      forall i: nat, j: nat | i < numElements && j < numMatchers && (i != ilhs || j != irhs)
        ensures SpaceIndex(i, j) != SpaceIndex(ilhs, irhs)
      {
        IndexInjective(i, j, ilhs, irhs, numMatchers);
      }
      matched[SpaceIndex(ilhs, irhs)] := b;
    }

    /**
     Adds one to the matrix read as a binary number; false when that left it empty. Together with
     EnumeratesAll: calls from the empty matrix visit every graph once before the first false.
     */
    method NextGraph() returns (more: bool)
      requires Valid()
      modifies matched
      ensures matched[..] == Increment(old(matched[..]))
      ensures more <==> exists k :: 0 <= k < matched.Length && !old(matched[k])
    {
      ghost var bits := matched[..];
      RowBounds(0);
      hide RowStart, SpaceIndex;
      for ilhs := 0 to numElements
        invariant RowStart(ilhs) <= matched.Length
        invariant Carried(bits, RowStart(ilhs), matched[..])
      {
        RowBounds(ilhs);
        for irhs := 0 to numMatchers
          invariant Carried(bits, RowStart(ilhs) + irhs, matched[..])
        {
          CellIndex(ilhs, irhs);
          var at := SpaceIndex(ilhs, irhs);
          if !matched[at] {
            matched[at] := true;
            IncrementAt(bits, at);
            assert matched[..] == Zero(at) + [true] + bits[at + 1..];
            return true;
          }
          matched[at] := false;
        }
      }
      RowBounds(numElements);
      IncrementOverflow(bits);
      assert matched[..] == Zero(matched.Length);
      return false;
    }

    ghost function RowStart(ilhs: nat): nat { ilhs * numMatchers }

    lemma RowBounds(ilhs: nat)
      requires Valid() && ilhs <= numElements
      ensures RowStart(0) == 0 && RowStart(numElements) == matched.Length
      ensures ilhs < numElements ==> RowStart(ilhs) + numMatchers == RowStart(ilhs + 1) <= matched.Length
    {
      if ilhs < numElements {
        assert (ilhs + 1) * numMatchers <= numElements * numMatchers;
      }
    }

    lemma CellIndex(ilhs: nat, irhs: nat)
      requires Valid() && ilhs < numElements && irhs < numMatchers
      ensures SpaceIndex(ilhs, irhs) == RowStart(ilhs) + irhs < matched.Length
    {
    }

    ghost function ToGraph(): (g: Graph)
      requires Valid()
      reads this, matched
      ensures g.Valid() && g.lhs == numElements && g.rhs == numMatchers
      ensures forall i: nat, j: nat :: i < numElements && j < numMatchers ==>
        (HasEdge(i, j) <==> (i, j) in g.edges)
    {
      var ls, rs := Range(numElements), Range(numMatchers);
      Graph(numElements, numMatchers, set i, j | i in ls && j in rs && HasEdge(i, j) :: (i, j))
    }

    ghost predicate Represents(g: Graph)
      reads this, matched
    {
      Valid() && g == ToGraph()
    }

    lemma EdgeLookup(g: Graph, ilhs: nat, irhs: nat)
      requires Represents(g) && ilhs < g.lhs && irhs < g.rhs
      ensures Valid() && ilhs < numElements && irhs < numMatchers
      ensures HasEdge(ilhs, irhs) <==> (ilhs, irhs) in g.edges
    {
    }
  }

  ghost predicate Carried(bits0: seq<bool>, cell: int, bits: seq<bool>) {
    && |bits| == |bits0| && 0 <= cell <= |bits|
    && (forall k :: 0 <= k < cell ==> bits0[k] && !bits[k])
    && (forall k :: cell <= k < |bits| ==> bits[k] == bits0[k])
  }

  lemma IndexInRange(i: nat, j: nat, n: nat, m: nat)
    requires i < n && j < m
    ensures i * m + j < n * m
  {
    assert (i + 1) * m <= n * m;
  }

  /** Distinct coordinates have distinct cells. */
  lemma IndexInjective(i: nat, j: nat, k: nat, l: nat, m: nat)
    requires j < m && l < m && (i != k || j != l)
    ensures i * m + j != k * m + l
  {
    if i < k {
      IndexInRange(i, j, k, m);
    } else if k < i {
      IndexInRange(k, l, i, m);
    }
  }

  // ----- The flow held by the two arrays -----

  /** Used entries of `left` are edges, and the two arrays are mutually referent. */
  ghost predicate Flow(g: Graph, left: seq<int>, right: seq<int>) {
    && Shape(g, left, right)
    && (forall l :: 0 <= l < g.lhs && left[l] != UNUSED ==> right[left[l]] == l && (l, left[l]) in g.edges)
    && (forall r :: 0 <= r < g.rhs && right[r] != UNUSED ==> left[right[r]] == r)
  }

  ghost predicate Shape(g: Graph, left: seq<int>, right: seq<int>) {
    && g.Valid() && |left| == g.lhs && |right| == g.rhs
    && (forall l :: 0 <= l < g.lhs ==> left[l] == UNUSED || 0 <= left[l] < g.rhs)
    && (forall r :: 0 <= r < g.rhs ==> right[r] == UNUSED || 0 <= right[r] < g.lhs)
  }

  /** Every matcher adjacent to element `l` is in `z`. */
  ghost predicate Inside(g: Graph, l: int, z: set<int>) {
    forall r :: 0 <= r < g.rhs && (l, r) in g.edges ==> r in z
  }

  /** A dead region: its matchers are all taken, by elements that see only the region. */
  ghost predicate Closed(g: Graph, right: seq<int>, z: set<int>) {
    forall r :: r in z ==> 0 <= r < |right| && right[r] != UNUSED && Inside(g, right[r], z)
  }

  ghost function Seen(seen: seq<bool>): (s: set<int>)
    ensures forall r :: r in s <==> 0 <= r < |seen| && seen[r]
  {
    set r | 0 <= r < |seen| && seen[r]
  }

  ghost function Unseen(seen: seq<bool>): (s: set<int>)
    ensures forall r :: r in s <==> 0 <= r < |seen| && !seen[r]
  {
    set r | 0 <= r < |seen| && !seen[r]
  }

  /**
   What a successful search from `l` leaves behind: exactly the matcher `sink` becomes used, no
   element but `l` changes between used and unused, and the arrays are mutually referent again
   but for one stale entry, the matcher that `l` gave up, which the caller overwrites.
   */
  ghost predicate Augmented(g: Graph, l: int, sink: int,
                            left0: seq<int>, right0: seq<int>, left: seq<int>, right: seq<int>)
  {
    && 0 <= l < g.lhs && Shape(g, left0, right0) && Shape(g, left, right)
    && left[l] != UNUSED
    && 0 <= sink < g.rhs && right0[sink] == UNUSED && right[sink] != UNUSED
    && (forall x :: 0 <= x < g.lhs && x != l ==> (left[x] == UNUSED <==> left0[x] == UNUSED))
    && (forall r :: 0 <= r < g.rhs && r != sink ==> (right[r] == UNUSED <==> right0[r] == UNUSED))
    && (forall x :: 0 <= x < g.lhs && left[x] != UNUSED ==> right[left[x]] == x && (x, left[x]) in g.edges)
    && (forall r :: 0 <= r < g.rhs && right[r] != UNUSED ==>
          left[right[r]] == r || (r == left0[l] && right[r] == l))
  }

  /** What a failed search has learned: everything it newly marked is a dead end. */
  ghost predicate DeadEnds(g: Graph, right: seq<int>, seen0: seq<bool>, seen: seq<bool>) {
    |seen0| == |seen| == |right| == g.rhs &&
    (forall r :: 0 <= r < g.rhs && seen[r] && !seen0[r] ==> right[r] != UNUSED && Inside(g, right[r], Seen(seen)))
  }

  ghost predicate Grows(seen0: seq<bool>, seen: seq<bool>) {
    |seen0| == |seen| && forall r :: 0 <= r < |seen| && seen0[r] ==> seen[r]
  }

  lemma DeadEndsNone(g: Graph, right: seq<int>, seen: seq<bool>)
    requires |seen| == |right| == g.rhs
    ensures DeadEnds(g, right, seen, seen)
  {
  }

  lemma DeadEndsGrow(g: Graph, right: seq<int>, seen0: seq<bool>, seen1: seq<bool>, seen2: seq<bool>, r: int)
    requires |seen0| == |seen1| == |seen2| == |right| == g.rhs
    requires DeadEnds(g, right, seen0, seen1)
    requires 0 <= r < g.rhs && !seen1[r] && right[r] != UNUSED
    requires Grows(seen1[r := true], seen2)
    requires DeadEnds(g, right, seen1[r := true], seen2) && Inside(g, right[r], Seen(seen2))
    ensures DeadEnds(g, right, seen0, seen2)
  {
    forall k | 0 <= k < g.rhs && seen2[k] && !seen0[k]
      ensures right[k] != UNUSED && Inside(g, right[k], Seen(seen2))
    {
      if seen1[k] {
        assert Inside(g, right[k], Seen(seen1));
      }
    }
  }

  /** A successful search from `l`; no dead region `z` contains `l`'s neighbours, and none was touched. */
  ghost predicate Found(g: Graph, l: int, sink: int, z: set<int>, seen0: seq<bool>,
                        left0: seq<int>, right0: seq<int>, left: seq<int>, right: seq<int>)
  {
    && Augmented(g, l, sink, left0, right0, left, right) && |seen0| == g.rhs
    && !seen0[left[l]]
    && !Inside(g, l, z)
    && (forall r :: 0 <= r < g.rhs && (seen0[r] || r in z) ==> right[r] == right0[r])
  }

  ghost predicate Failed(g: Graph, l: int, seen0: seq<bool>, seen: seq<bool>,
                         left0: seq<int>, right0: seq<int>, left: seq<int>, right: seq<int>)
  {
    left == left0 && right == right0 && Grows(seen0, seen) && Inside(g, l, Seen(seen)) && DeadEnds(g, right0, seen0, seen)
  }

  /** The sink is adjacent: link the two. */
  lemma AugmentDirect(g: Graph, l: int, r: int, z: set<int>, seen0: seq<bool>, left: seq<int>, right: seq<int>)
    requires Flow(g, left, right) && Closed(g, right, z) && |seen0| == g.rhs
    requires 0 <= l < g.lhs && (l, r) in g.edges && !seen0[r] && right[r] == UNUSED
    ensures Found(g, l, r, z, seen0, left, right, left[l := r], right[r := l])
  {
  }

  /** The element holding matcher `r` found another one: `l` takes `r` over. */
  lemma AugmentedThrough(g: Graph, l: int, r: int, sink: int,
                         left0: seq<int>, right0: seq<int>, left: seq<int>, right: seq<int>)
    requires Flow(g, left0, right0) && 0 <= l < g.lhs && (l, r) in g.edges
    requires right0[r] != UNUSED && left0[l] != r
    requires Augmented(g, right0[r], sink, left0, right0, left, right)
    requires left[right0[r]] != r && right[r] == right0[r]
    requires left0[l] != UNUSED ==> right[left0[l]] == l
    ensures Augmented(g, l, sink, left0, right0, left[l := r], right[r := l])
  {
  }

  lemma AugmentThrough(g: Graph, l: int, r: int, sink: int, z: set<int>, seen0: seq<bool>, seen1: seq<bool>,
                       left0: seq<int>, right0: seq<int>, left: seq<int>, right: seq<int>)
    requires Flow(g, left0, right0) && Closed(g, right0, z) && |seen0| == |seen1| == g.rhs
    requires 0 <= l < g.lhs && (l, r) in g.edges && !seen0[r] && right0[r] != UNUSED
    requires left0[l] != UNUSED ==> seen0[left0[l]]
    requires seen1[r] && Grows(seen0, seen1)
    requires Found(g, right0[r], sink, z, seen1, left0, right0, left, right)
    ensures Found(g, l, sink, z, seen0, left0, right0, left[l := r], right[r := l])
  {
    AugmentedThrough(g, l, r, sink, left0, right0, left, right);
    assert |right| == g.rhs && |left| == g.lhs;
    hide Augmented;
  }

  // ----- Why one visit per element is enough -----

  ghost function FlowPairs(left: seq<int>): (m: set<Pair>)
    ensures forall p :: p in m <==> 0 <= p.0 < |left| && left[p.0] != UNUSED && p.1 == left[p.0]
  {
    set l | 0 <= l < |left| && left[l] != UNUSED :: (l, left[l])
  }

  /** An element below `n` without a matcher is adjacent to dead matchers only. */
  ghost predicate SettledBelow(g: Graph, n: int, z: set<int>, left: seq<int>, right: seq<int>) {
    && Closed(g, right, z) && 0 <= n <= |left|
    && (forall l :: 0 <= l < n && left[l] == UNUSED ==> Inside(g, l, z))
    && (forall l :: n <= l < |left| ==> left[l] == UNUSED)
  }

  /** The element that is next has no flow yet. */
  lemma SettledNext(g: Graph, n: int, z: set<int>, left: seq<int>, right: seq<int>)
    requires Flow(g, left, right) && SettledBelow(g, n, z, left, right) && n < g.lhs
    ensures left[n] == UNUSED && Closed(g, right, z)
  {
  }

  /** A later success cannot take away the flow of an element, nor revive a dead region. */
  lemma SettledAfterSuccess(g: Graph, n: int, sink: int, z: set<int>, seen0: seq<bool>,
                            left0: seq<int>, right0: seq<int>, left: seq<int>, right: seq<int>)
    requires Flow(g, left0, right0) && SettledBelow(g, n, z, left0, right0)
    requires 0 <= n < g.lhs && Found(g, n, sink, z, seen0, left0, right0, left, right)
    ensures Flow(g, left, right) && SettledBelow(g, n + 1, z, left, right)
  {
  }

  /** A failed search enlarges the dead region by everything it marked. */
  lemma SettledAfterFailure(g: Graph, n: int, z: set<int>, seen0: seq<bool>, seen: seq<bool>,
                            left0: seq<int>, right0: seq<int>, left: seq<int>, right: seq<int>)
    requires Flow(g, left0, right0) && SettledBelow(g, n, z, left0, right0)
    requires 0 <= n < g.lhs && Failed(g, n, seen0, seen, left0, right0, left, right)
    requires forall r :: 0 <= r < |seen0| ==> !seen0[r]
    ensures Flow(g, left, right) && SettledBelow(g, n + 1, z + Seen(seen), left, right)
  {
    var z' := z + Seen(seen);
    forall r | r in z'
      ensures 0 <= r < |right| && right[r] != UNUSED && Inside(g, right[r], z')
    {
      if r in z { assert Inside(g, right[r], z); } else { assert Inside(g, right[r], Seen(seen)); }
    }
    forall l | 0 <= l < n + 1 && left[l] == UNUSED
      ensures Inside(g, l, z')
    {
      if l < n { assert Inside(g, l, z); }
    }
  }

  /** The pairs inside and outside the dead region. */
  ghost function Dead(left: seq<int>, z: set<int>): set<Pair> { set p <- FlowPairs(left) | p.1 in z }

  ghost function Live(left: seq<int>, z: set<int>): set<Pair> { set p <- FlowPairs(left) | p.1 !in z }

  lemma SettledCover(g: Graph, z: set<int>, left: seq<int>, right: seq<int>)
    requires Flow(g, left, right) && SettledBelow(g, g.lhs, z, left, right)
    ensures IsCover(g, Lefts(Live(left, z)), z)
  {
    forall e <- g.edges ensures e.0 in Lefts(Live(left, z)) || e.1 in z {
      if e.1 !in z {
        assert !Inside(g, e.0, z);
        assert (e.0, left[e.0]) in Live(left, z);
      }
    }
  }

  /** Every dead matcher is the end of exactly one dead pair. */
  lemma DeadEndsOfPairs(g: Graph, z: set<int>, left: seq<int>, right: seq<int>)
    requires Flow(g, left, right) && Closed(g, right, z)
    ensures Rights(Dead(left, z)) == z
  {
    forall r | r in z ensures r in Rights(Dead(left, z)) {
      assert (right[r], r) in Dead(left, z);
    }
  }

  lemma FlowIsMatching(g: Graph, left: seq<int>, right: seq<int>)
    requires Flow(g, left, right)
    ensures IsMatching(g, FlowPairs(left))
  {
  }

  /**
   Once every element is settled, the dead matchers together with the elements matched outside
   the dead region cover all edges, and there are exactly as many of them as there are pairs.
   */
  lemma SettledIsMaximum(g: Graph, z: set<int>, left: seq<int>, right: seq<int>)
    requires Flow(g, left, right) && SettledBelow(g, g.lhs, z, left, right)
    ensures IsMaximum(g, FlowPairs(left))
  {
    assert Closed(g, right, z);
    hide Flow, SettledBelow, Closed, IsMaximum, IsMatching, Lefts, Rights;
    FlowIsMatching(g, left, right);
    DeadEndsOfPairs(g, z, left, right);
    SettledCover(g, z, left, right);
    var dead, live := Dead(left, z), Live(left, z);
    assert FlowPairs(left) == dead + live;
    SubMatching(g, FlowPairs(left), dead);
    SubMatching(g, FlowPairs(left), live);
    MatchingEnds(g, dead);
    MatchingEnds(g, live);
    CoverIsMaximum(g, FlowPairs(left), Lefts(live), z);
  }

  // ----- The pairs reported to the caller -----

  ghost function ToSet(ps: seq<Pair>): set<Pair> { set p <- ps }

  ghost predicate InElementOrder(ps: seq<Pair>) {
    forall i, j :: 0 <= i < j < |ps| ==> ps[i].0 < ps[j].0
  }

  lemma {:induction false} OrderedSize(ps: seq<Pair>)
    requires InElementOrder(ps)
    ensures |ToSet(ps)| == |ps|
  {
    if ps != [] {
      var n := |ps| - 1;
      OrderedSize(ps[..n]);
      assert ToSet(ps) == ToSet(ps[..n]) + {ps[n]};
      assert ps[n] !in ToSet(ps[..n]);
    } else {
      assert ToSet(ps) == {};
    }
  }

  class MaxBipartiteMatchState {
    const graph: MatchMatrix
    const left: array<int>
    const right: array<int>

    ghost predicate Valid(g: Graph)
      reads this, graph, graph.matched, left, right
    {
      && graph.Represents(g) && graph.numElements == g.lhs && graph.numMatchers == g.rhs
      && left != right && left.Length == g.lhs && right.Length == g.rhs
    }

    constructor (graph: MatchMatrix)
      requires graph.Valid()
      ensures this.graph == graph && fresh(left) && fresh(right)
      ensures Valid(graph.ToGraph()) && Flow(graph.ToGraph(), left[..], right[..])
      ensures forall l :: 0 <= l < left.Length ==> left[l] == UNUSED
    {
      this.graph := graph;
      this.left := new int[graph.numElements](_ => UNUSED);
      this.right := new int[graph.numMatchers](_ => UNUSED);
    }

    /**
     Depth-first search for an augmenting path from element `ilhs`. `z` is any dead region: the
     search may walk into it, but a path that reaches the sink never touches it.
     */
    method TryAugment(ilhs: nat, seen: array<bool>, ghost g: Graph, ghost z: set<int>)
      returns (found: bool, ghost sink: int)
      requires Valid(g) && Flow(g, left[..], right[..])
      requires ilhs < g.lhs && seen.Length == g.rhs && seen != graph.matched
      requires left[ilhs] != UNUSED ==> seen[left[ilhs]]
      requires Closed(g, right[..], z)
      modifies left, right, seen
      decreases Unseen(seen[..])
      ensures Valid(g)
      ensures found ==> Found(g, ilhs, sink, z, old(seen[..]), old(left[..]), old(right[..]), left[..], right[..])
      ensures !found ==> Failed(g, ilhs, old(seen[..]), seen[..], old(left[..]), old(right[..]), left[..], right[..])
    {
      hide Augmented, Found, DeadEnds, MatchMatrix.Represents, MatchMatrix.HasEdge;
      ghost var left0, right0, seen0 := left[..], right[..], seen[..];
      DeadEndsNone(g, right0, seen0);
      for irhs := 0 to graph.numMatchers
        invariant left[..] == left0 && right[..] == right0
        invariant Grows(seen0, seen[..]) && DeadEnds(g, right0, seen0, seen[..])
        invariant forall r :: 0 <= r < irhs && (ilhs, r) in g.edges ==> seen[r]
      {
        if seen[irhs] {
          continue;
        }
        graph.EdgeLookup(g, ilhs, irhs);
        if !graph.HasEdge(ilhs, irhs) {
          continue;
        }
        ghost var seen1 := seen[..];
        seen[irhs] := true;
        assert seen[..] == seen1[irhs := true];
        ghost var left1, right1 := left0, right0;
        if right[irhs] == UNUSED {
          found, sink := true, irhs;
          AugmentDirect(g, ilhs, irhs, z, seen0, left0, right0);
        } else {
          assert Unseen(seen[..]) == Unseen(seen1) - {irhs};
          found, sink := TryAugment(right[irhs], seen, g, z);
          left1, right1 := left[..], right[..];
          if found {
            AugmentThrough(g, ilhs, irhs, sink, z, seen0, seen1[irhs := true], left0, right0, left1, right1);
          }
        }
        if found {
          left[ilhs], right[irhs] := irhs, ilhs;
          assert left[..] == left1[ilhs := irhs] && right[..] == right1[irhs := ilhs];
          return true, sink;
        }
        DeadEndsGrow(g, right0, seen0, seen1, seen[..], irhs);
      }
      return false, UNUSED;
    }

    /** One search from the next element, with the path marks cleared. */
    method Visit(ilhs: nat, ghost g: Graph, ghost z: set<int>) returns (ghost z': set<int>)
      requires Valid(g) && Flow(g, left[..], right[..])
      requires ilhs < g.lhs && SettledBelow(g, ilhs, z, left[..], right[..])
      modifies left, right
      ensures Valid(g) && Flow(g, left[..], right[..]) && SettledBelow(g, ilhs + 1, z', left[..], right[..])
    {
      hide Flow, Closed, Found, Failed, SettledBelow, MatchMatrix.Represents;
      SettledNext(g, ilhs, z, left[..], right[..]);
      assert left[ilhs] == UNUSED;  // the run-time check of the original
      var seen := new bool[graph.numMatchers](_ => false);
      ghost var left0, right0, seen0 := left[..], right[..], seen[..];
      var found, sink := TryAugment(ilhs, seen, g, z);
      if found {
        SettledAfterSuccess(g, ilhs, sink, z, seen0, left0, right0, left[..], right[..]);
        z' := z;
      } else {
        SettledAfterFailure(g, ilhs, z, seen0, seen[..], left0, right0, left[..], right[..]);
        z' := z + Seen(seen[..]);
      }
    }

    /** Returns the edges of a maximum matching, in element order. */
    method Compute(ghost g: Graph) returns (result: seq<Pair>)
      requires Valid(g) && Flow(g, left[..], right[..])
      requires forall l :: 0 <= l < g.lhs ==> left[l] == UNUSED
      modifies left, right
      ensures IsMaximum(g, ToSet(result)) && |ToSet(result)| == |result|
      ensures InElementOrder(result)
    {
      ghost var z := {};
      for ilhs := 0 to graph.numElements
        invariant Valid(g) && Flow(g, left[..], right[..])
        invariant SettledBelow(g, ilhs, z, left[..], right[..])
      {
        z := Visit(ilhs, g, z);
      }
      SettledIsMaximum(g, z, left[..], right[..]);
      result := Report();
    }

    method Report() returns (result: seq<Pair>)
      ensures InElementOrder(result)
      ensures ToSet(result) == FlowPairs(left[..]) && |ToSet(result)| == |result|
    {
      result := [];
      for ilhs := 0 to left.Length
        invariant InElementOrder(result)
        invariant forall p :: p in result <==> 0 <= p.0 < ilhs && left[p.0] != UNUSED && p.1 == left[p.0]
      {
        if left[ilhs] != UNUSED {
          result := result + [(ilhs, left[ilhs])];
        }
      }
      OrderedSize(result);
    }
  }

  method FindMaxBipartiteMatching(graph: MatchMatrix) returns (result: seq<Pair>)
    requires graph.Valid()
    ensures IsMaximum(graph.ToGraph(), ToSet(result)) && |ToSet(result)| == |result|
    ensures InElementOrder(result)
  {
    var state := new MaxBipartiteMatchState(graph);
    result := state.Compute(graph.ToGraph());
  }

  /** True exactly when every matcher can be given an element of its own that satisfies it. */
  method FindPairing(matrix: MatchMatrix) returns (result: bool)
    requires matrix.Valid()
    ensures result <==> exists f :: IsPairing(matrix.ToGraph(), f)
  {
    var matches := FindMaxBipartiteMatching(matrix);
    result := |matches| == matrix.numMatchers;
    PerfectIffPairing(matrix.ToGraph(), ToSet(matches));
  }

  ghost predicate ElementTouched(g: Graph, l: int, n: int) {
    exists r :: 0 <= r < n && (l, r) in g.edges
  }

  ghost predicate MatcherTouched(g: Graph, r: int, n: int) {
    exists l :: 0 <= l < n && (l, r) in g.edges
  }

  /** The cheap filter run before the search: no matcher and no element is left without an edge. */
  ghost predicate AllTouched(g: Graph) {
    && (forall r :: 0 <= r < g.rhs ==> MatcherTouched(g, r, g.lhs))
    && (forall l :: 0 <= l < g.lhs ==> ElementTouched(g, l, g.rhs))
  }

  /** The marks after all rows before `l` and the first `r` cells of row `l`. */
  ghost predicate Marks(g: Graph, l: int, r: int, elements: seq<bool>, matchers: seq<bool>) {
    && |elements| == g.lhs && |matchers| == g.rhs
    && (forall k :: 0 <= k < g.rhs ==> (matchers[k] <==> MatcherTouched(g, k, if k < r then l + 1 else l)))
    && (forall k :: 0 <= k < g.lhs ==>
          (elements[k] <==> ElementTouched(g, k, if k < l then g.rhs else if k == l then r else 0)))
  }

  lemma MarksStep(g: Graph, l: int, r: int, elements: seq<bool>, matchers: seq<bool>, edge: bool)
    requires Marks(g, l, r, elements, matchers) && 0 <= l < g.lhs && 0 <= r < g.rhs
    requires edge <==> (l, r) in g.edges
    ensures Marks(g, l, r + 1, elements[l := elements[l] || edge], matchers[r := matchers[r] || edge])
  {
    TouchedSteps(g, l, r);
    hide MatcherTouched, ElementTouched;
  }

  lemma MarksRow(g: Graph, l: int, elements: seq<bool>, matchers: seq<bool>)
    requires Marks(g, l, g.rhs, elements, matchers)
    ensures Marks(g, l + 1, 0, elements, matchers)
  {
    assert forall k :: !ElementTouched(g, k, 0);
    hide MatcherTouched, ElementTouched;
  }

  lemma MarksDone(g: Graph, elements: seq<bool>, matchers: seq<bool>)
    requires Marks(g, g.lhs, 0, elements, matchers)
    ensures (forall k :: 0 <= k < |elements| ==> elements[k]) && (forall k :: 0 <= k < |matchers| ==> matchers[k])
      <==> AllTouched(g)
  {
    hide MatcherTouched, ElementTouched;
    assert forall k :: 0 <= k < g.rhs ==> (matchers[k] <==> MatcherTouched(g, k, g.lhs));
    assert forall k :: 0 <= k < g.lhs ==> (elements[k] <==> ElementTouched(g, k, g.rhs));
  }

  method VerifyAllElementsAndMatchersAreMatched(matrix: MatchMatrix) returns (result: bool)
    requires matrix.Valid()
    ensures result <==> AllTouched(matrix.ToGraph())
  {
    ghost var g := matrix.ToGraph();
    var elementMatched := seq(matrix.numElements, _ => false);
    var matcherMatched := seq(matrix.numMatchers, _ => false);
    assert Marks(g, 0, 0, elementMatched, matcherMatched);
    hide Marks, AllTouched, MatchMatrix.HasEdge;
    for ilhs := 0 to matrix.numElements
      invariant |elementMatched| == g.lhs && |matcherMatched| == g.rhs
      invariant Marks(g, ilhs, 0, elementMatched, matcherMatched)
    {
      for irhs := 0 to matrix.numMatchers
        invariant |elementMatched| == g.lhs && |matcherMatched| == g.rhs
        invariant Marks(g, ilhs, irhs, elementMatched, matcherMatched)
      {
        var matched := matrix.HasEdge(ilhs, irhs);
        MarksStep(g, ilhs, irhs, elementMatched, matcherMatched, matched);
        elementMatched := elementMatched[ilhs := elementMatched[ilhs] || matched];
        matcherMatched := matcherMatched[irhs := matcherMatched[irhs] || matched];
      }
      MarksRow(g, ilhs, elementMatched, matcherMatched);
    }
    var allMatchers := AllMarked(matcherMatched);
    var allElements := AllMarked(elementMatched);
    result := allMatchers && allElements;
    MarksDone(g, elementMatched, matcherMatched);
  }

  /** The reporting loops of the original, without the report. */
  method AllMarked(marks: seq<bool>) returns (result: bool)
    ensures result <==> forall k :: 0 <= k < |marks| ==> marks[k]
  {
    result := true;
    for k := 0 to |marks|
      invariant result <==> forall j :: 0 <= j < k ==> marks[j]
    {
      if !marks[k] { result := false; }
    }
  }

  lemma TouchedSteps(g: Graph, l: nat, r: nat)
    ensures MatcherTouched(g, r, l + 1) <==> MatcherTouched(g, r, l) || (l, r) in g.edges
    ensures ElementTouched(g, l, r + 1) <==> ElementTouched(g, l, r) || (l, r) in g.edges
  {
    if (l, r) in g.edges {
      assert 0 <= l < l + 1 && (l, r) in g.edges;
      assert 0 <= r < r + 1 && (l, r) in g.edges;
    }
  }

  /** A permutation of the elements that satisfies all matchers. */
  ghost predicate IsPermutationMatch(g: Graph, f: seq<int>) {
    g.lhs == g.rhs && IsPairing(g, f)
  }

  /** The filter never rejects what the search would accept. */
  lemma FilterIsSound(g: Graph, f: seq<int>)
    requires g.Valid() && IsPermutationMatch(g, f)
    ensures AllTouched(g)
  {
    PairingIsMatching(g, f, g.rhs);
    var m := PairsOf(f, g.rhs);
    MatchingEnds(g, m);
    SubsetOfSameSize(Lefts(m), Range(g.lhs));
    forall l | 0 <= l < g.lhs ensures ElementTouched(g, l, g.rhs) {
      assert l in Lefts(m);
    }
    forall r | 0 <= r < g.rhs ensures MatcherTouched(g, r, g.lhs) {
      assert (f[r], r) in g.edges;
    }
  }

  /** The verdict of UnorderedElementsAre. */
  method MatchAndExplain(matrix: MatchMatrix) returns (result: bool)
    requires matrix.Valid()
    ensures result <==> exists f :: IsPermutationMatch(matrix.ToGraph(), f)
  {
    ghost var g := matrix.ToGraph();
    if matrix.numElements == 0 && matrix.numMatchers == 0 {
      assert IsPermutationMatch(g, []);
      return true;
    }
    if matrix.numElements != matrix.numMatchers {
      return false;
    }
    result := VerifyAllElementsAndMatchersAreMatched(matrix);
    if result {
      result := FindPairing(matrix);
      assert forall f :: IsPairing(g, f) <==> IsPermutationMatch(g, f);
    } else {
      forall f | IsPermutationMatch(g, f) ensures false {
        FilterIsSound(g, f);
      }
    }
  }
}
