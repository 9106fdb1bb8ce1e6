/**
 The order between mock expectations: prerequisites form a directed acyclic graph, a handled call
 retires everything that had to come before it, and an expectation is matched only when all its
 transitive prerequisites are satisfied.
 */
module SpecBuilders {

  class ExpectationBase {
    const min: int
    const max: int
    const retiresOnSaturation: bool
    var immediatePrerequisites: set<ExpectationBase>
    var callCount: nat
    var retired: bool
    ghost var rank: nat    // witnesses that the graph has no cycle

    constructor (min: int, max: int, retiresOnSaturation: bool)
      ensures this.min == min && this.max == max && this.retiresOnSaturation == retiresOnSaturation
      ensures immediatePrerequisites == {} && callCount == 0 && !retired
    {
      this.min, this.max, this.retiresOnSaturation := min, max, retiresOnSaturation;
      immediatePrerequisites, callCount, retired := {}, 0, false;
    }

    predicate IsSatisfied() reads this`callCount { min <= callCount <= max }

    predicate IsSaturated() reads this`callCount { callCount >= max }

    /** Retires all transitive prerequisites and nothing else, although it stops at retired ones. */
    method RetireAllPreRequisites(ghost all: set<ExpectationBase>)
      requires this in all && Acyclic(all) && RetiredClosed(all)
      modifies all`retired
      ensures RetiredClosed(all)
      ensures forall x :: x in all ==> x.retired == (old(x.retired) || Before(x, this, all))
      decreases rank
    {
      if retired {
        forall x | x in all && Before(x, this, all) ensures x.retired { ClosedBefore(x, this, all); }
        return;
      }
      var todo := immediatePrerequisites;
      ghost var done := {};
      while todo != {}
        invariant done + todo == immediatePrerequisites && RetiredClosed(all)
        invariant forall x :: x in all ==> x.retired == (old(x.retired) || BeforeSome(x, done, all))
      {
        var prerequisite :| prerequisite in todo;
        if !prerequisite.retired {
          prerequisite.RetireAllPreRequisites(all);
          prerequisite.retired := true;
        } else {
          forall x | x in all && Before(x, prerequisite, all) ensures x.retired { ClosedBefore(x, prerequisite, all); }
        }
        AmongGrows(done, prerequisite, all);
        todo, done := todo - {prerequisite}, done + {prerequisite};
      }
      assert done == immediatePrerequisites;
      BeforeUnfolds(this, all);
    }

    /**
     A call that this expectation handles: it is counted and, unless it is one too many, retires
     whatever had to come before.
     */
    method Handle(ghost all: set<ExpectationBase>) returns (excessive: bool)
      requires Sound(all) && this in all && !retired && AllBeforeSatisfied(this, all)
      modifies all`retired, this`callCount
      ensures Sound(all) && excessive == (old(callCount) >= max) && callCount == old(callCount) + 1
      ensures forall x :: x in all ==>
        x.retired == (old(x.retired) || (!excessive && (Before(x, this, all) || (x == this && retiresOnSaturation && callCount >= max))))
      ensures AllBeforeRetired(this, all) <==> 0 < max || old(AllBeforeRetired(this, all))
    {
      hide Before;
      forall x | x in all && Before(x, this, all) ensures x.rank < rank { BeforeHasLowerRank(x, this, all); }
      excessive := IsSaturated();
      callCount := callCount + 1;
      if !excessive {
        RetireAllPreRequisites(all);
        Direct(this, all);
        if retiresOnSaturation && IsSaturated() {
          retired := true;
        }
      }
    }

    method AllPrerequisitesAreSatisfied(ghost all: set<ExpectationBase>) returns (r: bool)
      requires this in all && Acyclic(all)
      ensures r == AllBeforeSatisfied(this, all)
      decreases rank
    {
      var todo := immediatePrerequisites;
      ghost var done := {};
      while todo != {}
        invariant done + todo == immediatePrerequisites
        invariant forall x :: x in all && BeforeSome(x, done, all) ==> x.IsSatisfied()
      {
        var it :| it in todo;
        assert Before(it, this, all);
        if !it.IsSatisfied() {
          return false;
        }
        var deep := it.AllPrerequisitesAreSatisfied(all);
        if !deep {
          ghost var x :| x in all && Before(x, it, all) && !x.IsSatisfied();
          assert Before(x, this, all);
          return false;
        }
        AmongGrows(done, it, all);
        todo, done := todo - {it}, done + {it};
      }
      assert done == immediatePrerequisites;
      BeforeUnfolds(this, all);
      return true;
    }

    /** Satisfied prerequisites that were called are not looked behind. */
    method FindUnsatisfiedPrerequisites(result: set<ExpectationBase>, ghost all: set<ExpectationBase>)
      returns (r: set<ExpectationBase>)
      requires this in all && Acyclic(all) && result <= all
      ensures r <= all && forall x :: x in all ==> (x in r <==> x in result || Blocks(x, this, all))
      decreases rank
    {
      hide Blocks, BlocksAmong;
      BlocksNone(all);
      r := result;
      var todo := immediatePrerequisites;
      ghost var done := {};
      while todo != {}
        invariant done + todo == immediatePrerequisites && r <= all
        invariant forall x :: x in all ==> (x in r <==> x in result || BlocksAmong(x, done, all))
      {
        var it :| it in todo;
        if it.IsSatisfied() {
          if it.callCount == 0 {
            r := it.FindUnsatisfiedPrerequisites(r, all);
          }
        } else {
          r := r + {it};
        }
        BlockingGrows(done, it, all);
        todo, done := todo - {it}, done + {it};
      }
      assert done == immediatePrerequisites;
      BlocksUnfolds(this, all);
    }
  }

  ghost predicate Acyclic(all: set<ExpectationBase>)
    reads all`immediatePrerequisites, all`rank
  {
    forall e, p :: e in all && p in e.immediatePrerequisites ==> p in all && p.rank < e.rank
  }

  /** `p` is a transitive prerequisite of `e`. */
  ghost predicate Before(p: ExpectationBase, e: ExpectationBase, all: set<ExpectationBase>)
    requires e in all && Acyclic(all)
    reads all`immediatePrerequisites, all`rank
    decreases e.rank
  {
    exists q :: q in e.immediatePrerequisites && (q == p || Before(p, q, all))
  }

  ghost predicate BeforeSome(p: ExpectationBase, among: set<ExpectationBase>, all: set<ExpectationBase>)
    requires among <= all && Acyclic(all)
    reads all`immediatePrerequisites, all`rank
  {
    exists q :: q in among && (q == p || Before(p, q, all))
  }

  ghost predicate RetiredClosed(all: set<ExpectationBase>)
    reads all`immediatePrerequisites, all`retired
  {
    forall e, p :: e in all && e.retired && p in e.immediatePrerequisites && p in all ==> p.retired
  }

  ghost predicate AllBeforeSatisfied(e: ExpectationBase, all: set<ExpectationBase>)
    requires e in all && Acyclic(all)
    reads all
  {
    forall x :: x in all && Before(x, e, all) ==> x.min <= x.callCount <= x.max
  }

  ghost predicate AllBeforeRetired(e: ExpectationBase, all: set<ExpectationBase>)
    requires e in all && Acyclic(all)
    reads all
  {
    forall x :: x in all && Before(x, e, all) ==> x.retired
  }

  // ----- The same by chains of immediate prerequisites -----

  /** Each one is an immediate prerequisite of the next. */
  ghost predicate IsChain(chain: seq<ExpectationBase>)
    reads chain
  {
    |chain| >= 2 && forall k :: 0 <= k < |chain| - 1 ==> chain[k] in chain[k + 1].immediatePrerequisites
  }

  ghost predicate Links(chain: seq<ExpectationBase>, p: ExpectationBase, e: ExpectationBase)
    reads chain
  {
    IsChain(chain) && chain[0] == p && chain[|chain| - 1] == e
  }

  /** Between the two ends, every one is satisfied and was never called. */
  ghost predicate Unheard(chain: seq<ExpectationBase>)
    reads chain
  {
    forall k :: 0 < k < |chain| - 1 ==> chain[k].callCount == 0 && chain[k].min <= 0 <= chain[k].max
  }

  lemma ChainMore(chain: seq<ExpectationBase>, q: ExpectationBase, e: ExpectationBase)
    requires IsChain(chain) && chain[|chain| - 1] == q && q in e.immediatePrerequisites
    ensures Links(chain + [e], chain[0], e)
    ensures Unheard(chain) && q.callCount == 0 && q.min <= 0 <= q.max ==> Unheard(chain + [e])
  {
    var more := chain + [e];
    forall k | 0 <= k < |more| - 1 ensures more[k] in more[k + 1].immediatePrerequisites {
      if k < |chain| - 1 { assert chain[k] in chain[k + 1].immediatePrerequisites; }
    }
  }

  lemma ChainLess(chain: seq<ExpectationBase>)
    requires IsChain(chain) && |chain| > 2
    ensures IsChain(chain[..|chain| - 1]) && chain[|chain| - 2] in chain[|chain| - 1].immediatePrerequisites
    ensures Unheard(chain) ==> Unheard(chain[..|chain| - 1])
  {
  }

  lemma {:induction false} ChainOf(p: ExpectationBase, e: ExpectationBase, all: set<ExpectationBase>) returns (chain: seq<ExpectationBase>)
    requires e in all && Acyclic(all) && Before(p, e, all)
    ensures Links(chain, p, e)
    decreases e.rank
  {
    var q :| q in e.immediatePrerequisites && (q == p || Before(p, q, all));
    if q == p {
      chain := [p, e];
    } else {
      chain := ChainOf(p, q, all);
      ChainMore(chain, q, e);
      chain := chain + [e];
    }
  }

  lemma {:induction false} BeforeByChain(chain: seq<ExpectationBase>, all: set<ExpectationBase>)
    requires IsChain(chain) && chain[|chain| - 1] in all && Acyclic(all)
    ensures Before(chain[0], chain[|chain| - 1], all)
    decreases |chain|
  {
    if |chain| > 2 {
      ChainLess(chain);
      BeforeByChain(chain[..|chain| - 1], all);
    } else {
      assert chain[0] in chain[1].immediatePrerequisites;
    }
  }

  /** The transitive prerequisites are those at the beginning of a chain. */
  lemma BeforeIffChain(p: ExpectationBase, e: ExpectationBase, all: set<ExpectationBase>)
    requires e in all && Acyclic(all)
    ensures Before(p, e, all) <==> exists chain :: Links(chain, p, e)
  {
    if Before(p, e, all) { var chain := ChainOf(p, e, all); }
    if chain :| Links(chain, p, e) { BeforeByChain(chain, all); }
  }

  lemma Direct(e: ExpectationBase, all: set<ExpectationBase>)
    requires e in all && Acyclic(all)
    ensures forall q :: q in e.immediatePrerequisites ==> Before(q, e, all)
  {
  }

  /** `x` is unsatisfied and reached from `e` through satisfied expectations that were never called. */
  ghost predicate Blocks(x: ExpectationBase, e: ExpectationBase, all: set<ExpectationBase>)
    requires e in all && Acyclic(all)
    reads all
    decreases e.rank
  {
    exists q :: q in e.immediatePrerequisites &&
      if q.IsSatisfied() then q.callCount == 0 && Blocks(x, q, all) else q == x
  }

  ghost predicate BlocksAmong(x: ExpectationBase, among: set<ExpectationBase>, all: set<ExpectationBase>)
    requires among <= all && Acyclic(all)
    reads all
  {
    exists q :: q in among &&
      if q.IsSatisfied() then q.callCount == 0 && Blocks(x, q, all) else q == x
  }

  lemma {:induction false} BlockingChain(x: ExpectationBase, e: ExpectationBase, all: set<ExpectationBase>)
    returns (chain: seq<ExpectationBase>)
    requires e in all && Acyclic(all) && Blocks(x, e, all)
    ensures Links(chain, x, e) && Unheard(chain) && !(x.min <= x.callCount <= x.max)
    decreases e.rank
  {
    var q :| q in e.immediatePrerequisites && if q.IsSatisfied() then q.callCount == 0 && Blocks(x, q, all) else q == x;
    if q.IsSatisfied() {
      chain := BlockingChain(x, q, all);
      ChainMore(chain, q, e);
      chain := chain + [e];
    } else {
      chain := [x, e];
    }
  }

  lemma {:induction false} BlocksByChain(chain: seq<ExpectationBase>, all: set<ExpectationBase>)
    requires IsChain(chain) && Unheard(chain) && chain[|chain| - 1] in all && Acyclic(all)
    requires !(chain[0].min <= chain[0].callCount <= chain[0].max)
    ensures Blocks(chain[0], chain[|chain| - 1], all)
    decreases |chain|
  {
    if |chain| > 2 {
      ChainLess(chain);
      var q := chain[|chain| - 2];
      BlocksByChain(chain[..|chain| - 1], all);
      assert q.callCount == 0 && q.IsSatisfied();
    } else {
      assert chain[0] in chain[1].immediatePrerequisites;
    }
  }

  /** What the search reports: unsatisfied ones, behind satisfied ones that were never called. */
  lemma BlocksIffChain(x: ExpectationBase, e: ExpectationBase, all: set<ExpectationBase>)
    requires e in all && Acyclic(all)
    ensures Blocks(x, e, all) <==> !(x.min <= x.callCount <= x.max) && exists chain :: Links(chain, x, e) && Unheard(chain)
  {
    if Blocks(x, e, all) { var chain := BlockingChain(x, e, all); }
    if !(x.min <= x.callCount <= x.max) {
      if chain :| Links(chain, x, e) && Unheard(chain) { BlocksByChain(chain, all); }
    }
  }

  lemma AmongGrows(among: set<ExpectationBase>, q: ExpectationBase, all: set<ExpectationBase>)
    requires among <= all && q in all && Acyclic(all)
    ensures forall x :: x in all ==>
      (BeforeSome(x, among + {q}, all) <==> BeforeSome(x, among, all) || x == q || Before(x, q, all))
  {
    hide Before;
    forall x | x in all && BeforeSome(x, among, all) ensures BeforeSome(x, among + {q}, all) {
      var y :| y in among && (y == x || Before(x, y, all));
      assert y in among + {q};
    }
    assert q in among + {q};
  }

  lemma BeforeUnfolds(e: ExpectationBase, all: set<ExpectationBase>)
    requires e in all && Acyclic(all)
    ensures forall x :: x in all ==> (Before(x, e, all) <==> BeforeSome(x, e.immediatePrerequisites, all))
  {
  }

  lemma BlockingGrows(among: set<ExpectationBase>, q: ExpectationBase, all: set<ExpectationBase>)
    requires among <= all && q in all && Acyclic(all)
    ensures forall x :: x in all ==> (BlocksAmong(x, among + {q}, all) <==>
      BlocksAmong(x, among, all) || if q.IsSatisfied() then q.callCount == 0 && Blocks(x, q, all) else q == x)
  {
    hide Blocks;
    assert q in among + {q};
    forall x | x in all && BlocksAmong(x, among, all) ensures BlocksAmong(x, among + {q}, all) {
      var y :| y in among && if y.IsSatisfied() then y.callCount == 0 && Blocks(x, y, all) else y == x;
      assert y in among + {q};
    }
  }

  lemma BlocksNone(all: set<ExpectationBase>)
    requires Acyclic(all)
    ensures forall x :: x in all ==> !BlocksAmong(x, {}, all)
  {
  }

  lemma BlocksUnfolds(e: ExpectationBase, all: set<ExpectationBase>)
    requires e in all && Acyclic(all)
    ensures forall x :: x in all ==> (Blocks(x, e, all) <==> BlocksAmong(x, e.immediatePrerequisites, all))
  {
  }

  lemma {:induction false} ClosedBefore(p: ExpectationBase, e: ExpectationBase, all: set<ExpectationBase>)
    requires e in all && Acyclic(all) && RetiredClosed(all) && e.retired && Before(p, e, all)
    ensures p.retired
    decreases e.rank
  {
    var q :| q in e.immediatePrerequisites && (q == p || Before(p, q, all));
    if q != p { ClosedBefore(p, q, all); }
  }

  lemma {:induction false} BeforeHasLowerRank(p: ExpectationBase, e: ExpectationBase, all: set<ExpectationBase>)
    requires e in all && Acyclic(all) && Before(p, e, all)
    ensures p in all && p.rank < e.rank
    decreases e.rank
  {
    var q :| q in e.immediatePrerequisites && (q == p || Before(p, q, all));
    if q != p { BeforeHasLowerRank(p, q, all); }
  }

  lemma {:induction false} BeforeInLarger(p: ExpectationBase, e: ExpectationBase,
        all: set<ExpectationBase>, larger: set<ExpectationBase>)
    requires e in all && all <= larger && Acyclic(all) && Acyclic(larger)
    ensures Before(p, e, larger) == Before(p, e, all)
    decreases e.rank
  {
    forall q | q in e.immediatePrerequisites ensures Before(p, q, larger) == Before(p, q, all) {
      BeforeInLarger(p, q, all, larger);
    }
  }

  // ----- What every run keeps -----

  /** A called expectation that may be called at all has only satisfied, retired ones behind it. */
  ghost predicate CalledClosed(all: set<ExpectationBase>)
    requires Acyclic(all)
    reads all
  {
    forall e, x :: e in all && x in all && 0 < e.callCount && 0 < e.max && Before(x, e, all) ==> x.retired && x.IsSatisfied()
  }

  ghost predicate Sound(all: set<ExpectationBase>)
    reads all
  {
    Acyclic(all) && RetiredClosed(all) && CalledClosed(all)
  }

  /** What the search for unsatisfied prerequisites relies on. */
  ghost predicate CalledSatisfied(all: set<ExpectationBase>)
    requires Acyclic(all)
    reads all
  {
    forall q :: q in all && 0 < q.callCount && q.IsSatisfied() ==> AllBeforeSatisfied(q, all)
  }

  /** Every run keeps it. */
  lemma SoundIsCalledSatisfied(all: set<ExpectationBase>)
    requires Sound(all)
    ensures CalledSatisfied(all)
  {
    hide Before;
  }

  /**
   The search that stops at called expectations still finds something whenever something is
   unsatisfied: nothing is reported iff everything is satisfied.
   */
  lemma {:induction false} NothingBlocksIffSatisfied(e: ExpectationBase, all: set<ExpectationBase>)
    requires Acyclic(all) && CalledSatisfied(all) && e in all
    ensures (exists x :: x in all && Blocks(x, e, all)) <==> !AllBeforeSatisfied(e, all)
    ensures forall x :: x in all && Blocks(x, e, all) ==> Before(x, e, all) && !x.IsSatisfied()
    decreases e.rank
  {
    forall q | q in e.immediatePrerequisites
      ensures (exists x :: x in all && Blocks(x, q, all)) <==> !AllBeforeSatisfied(q, all)
      ensures forall x :: x in all && Blocks(x, q, all) ==> Before(x, q, all) && !x.IsSatisfied()
    {
      NothingBlocksIffSatisfied(q, all);
    }
    if !AllBeforeSatisfied(e, all) {
      var x :| x in all && Before(x, e, all) && !x.IsSatisfied();
      BlockerBehind(x, e, all);
    }
  }

  /** Some direct prerequisite is unsatisfied, or uncalled with something unsatisfied behind it. */
  lemma BlockerBehind(x: ExpectationBase, e: ExpectationBase, all: set<ExpectationBase>)
    requires Acyclic(all) && CalledSatisfied(all) && e in all && x in all && Before(x, e, all) && !x.IsSatisfied()
    requires forall q :: q in e.immediatePrerequisites && !AllBeforeSatisfied(q, all) ==>
      exists y :: y in all && Blocks(y, q, all)
    ensures exists y :: y in all && Blocks(y, e, all)
  {
    var q :| q in e.immediatePrerequisites && (q == x || Before(x, q, all));
    if !q.IsSatisfied() {
      assert Blocks(q, e, all);
    } else {
      assert q.callCount == 0;
      var y :| y in all && Blocks(y, q, all);
      assert Blocks(y, e, all);
    }
  }

  /** `e` is still being set up: no call was handled by it and nothing depends on it. */
  ghost predicate Unused(e: ExpectationBase, all: set<ExpectationBase>)
    reads all
  {
    e in all && e.callCount == 0 && !e.retired && forall f :: f in all ==> e !in f.immediatePrerequisites
  }

  /** Everything behind each expectation, as a value that outlives a change of the graph. */
  ghost function Behind(all: set<ExpectationBase>): map<ExpectationBase, set<ExpectationBase>>
    requires Acyclic(all)
    reads all`immediatePrerequisites, all`rank
  {
    map f | f in all :: set x | x in all && Before(x, f, all)
  }

  ghost function Edges(all: set<ExpectationBase>): map<ExpectationBase, set<ExpectationBase>>
    reads all`immediatePrerequisites
  {
    map f | f in all :: f.immediatePrerequisites
  }

  /** `behind` contains what the edges put behind everything but `e`. */
  ghost predicate Covers(behind: map<ExpectationBase, set<ExpectationBase>>, e: ExpectationBase, all: set<ExpectationBase>,
        edges: map<ExpectationBase, set<ExpectationBase>>)
  {
    && all <= behind.Keys && all <= edges.Keys
    && (forall g, q :: g in all && g != e && q in edges[g] ==> q != e && q in all && q in behind[g])
    && (forall g, q, y :: g in all && g != e && q in edges[g] && q in all && y in behind[q] ==> y in behind[g])
  }

  /** Only `e` may have other edges by now. */
  ghost predicate SameEdges(e: ExpectationBase, all: set<ExpectationBase>, edges: map<ExpectationBase, set<ExpectationBase>>)
    reads all`immediatePrerequisites
  {
    forall g :: g in all && g != e && g in edges ==> g.immediatePrerequisites == edges[g]
  }

  lemma BehindCovers(e: ExpectationBase, all: set<ExpectationBase>)
    requires Acyclic(all) && Unused(e, all)
    ensures Covers(Behind(all), e, all, Edges(all))
  {
  }

  lemma {:induction false} WasBehind(x: ExpectationBase, f: ExpectationBase, e: ExpectationBase, all: set<ExpectationBase>,
        behind: map<ExpectationBase, set<ExpectationBase>>, edges: map<ExpectationBase, set<ExpectationBase>>)
    requires Acyclic(all) && Covers(behind, e, all, edges) && SameEdges(e, all, edges)
    requires f in all && f != e && Before(x, f, all)
    ensures x in behind[f]
    decreases f.rank
  {
    var q :| q in f.immediatePrerequisites && (q == x || Before(x, q, all));
    assert q in edges[f] && q in all;
    assert q in behind[f];
    if q != x { WasBehind(x, q, e, all, behind, edges); }
  }

  /** The handle through which a sequence is shared. */
  class Sequence {
    var lastExpectation: ExpectationBase?

    constructor ()
      ensures lastExpectation == null
    {
      lastExpectation := null;
    }
  }

  datatype Handled = Handled(expectation: ExpectationBase, excessive: bool)

  /** How many of these calls an expectation has handled. */
  ghost function Calls(handled: seq<Handled>, e: ExpectationBase): nat {
    if handled == [] then 0
    else Calls(handled[..|handled| - 1], e) + if handled[|handled| - 1].expectation == e then 1 else 0
  }

  /** The counters tell the history, and an expectation that retires on saturation is never called too often. */
  ghost predicate Counted(all: set<ExpectationBase>, handled: seq<Handled>)
    reads all`callCount, all`retired
  {
    && (forall h :: h in handled ==> h.expectation in all)
    && (forall e :: e in all ==> e.callCount == Calls(handled, e))
    && (forall e :: e in all && e.retiresOnSaturation && 0 < e.max ==> e.callCount <= e.max && (e.callCount == e.max ==> e.retired))
  }

  /** No prerequisite handles a call after its dependant has, unless the dependant may not be called at all. */
  ghost predicate Ordered(handled: seq<Handled>, behind: map<ExpectationBase, set<ExpectationBase>>) {
    forall i, j :: 0 <= i < j < |handled| && 0 < handled[i].expectation.max && handled[i].expectation in behind ==>
      handled[j].expectation !in behind[handled[i].expectation]
  }

  /** When a call comes, all its transitive prerequisites have been called often enough, and not too often. */
  ghost predicate WithinBounds(handled: seq<Handled>, behind: map<ExpectationBase, set<ExpectationBase>>) {
    forall i, p :: 0 <= i < |handled| && handled[i].expectation in behind && p in behind[handled[i].expectation] ==>
      p.min <= Calls(handled[..i], p) <= p.max
  }

  /** A call is excessive exactly if it is one too many. */
  ghost predicate Marked(handled: seq<Handled>) {
    forall i :: 0 <= i < |handled| ==>
      (handled[i].excessive <==> Calls(handled[..i], handled[i].expectation) >= handled[i].expectation.max)
  }

  /** The whole history, on a graph given by what is behind each expectation. */
  ghost predicate Told(all: set<ExpectationBase>, handled: seq<Handled>, behind: map<ExpectationBase, set<ExpectationBase>>)
    reads all`callCount, all`retired
  {
    Counted(all, handled) && Ordered(handled, behind) && WithinBounds(handled, behind) && Marked(handled)
  }

  lemma CountedMore(handled: seq<Handled>, h: Handled)
    ensures forall e :: Calls(handled + [h], e) == Calls(handled, e) + if h.expectation == e then 1 else 0
  {
    assert (handled + [h])[..|handled|] == handled;
  }

  lemma MarkedMore(handled: seq<Handled>, h: Handled)
    requires Marked(handled) && (h.excessive <==> Calls(handled, h.expectation) >= h.expectation.max)
    ensures Marked(handled + [h])
  {
    hide Calls;
    var more := handled + [h];
    forall i | 0 <= i < |more| ensures more[i].excessive <==> Calls(more[..i], more[i].expectation) >= more[i].expectation.max {
      assert more[..i] == handled[..i];
    }
  }

  lemma WithinBoundsMore(handled: seq<Handled>, behind: map<ExpectationBase, set<ExpectationBase>>, h: Handled)
    requires WithinBounds(handled, behind) && h.expectation in behind
    requires forall p :: p in behind[h.expectation] ==> p.min <= Calls(handled, p) <= p.max
    ensures WithinBounds(handled + [h], behind)
  {
    hide Calls;
    var more := handled + [h];
    forall i, p | 0 <= i < |more| && more[i].expectation in behind && p in behind[more[i].expectation]
      ensures p.min <= Calls(more[..i], p) <= p.max
    {
      assert more[..i] == handled[..i];
    }
  }

  /** Less behind the expectations that were called changes nothing. */
  lemma ToldOfLess(all: set<ExpectationBase>, handled: seq<Handled>,
        behind: map<ExpectationBase, set<ExpectationBase>>, less: map<ExpectationBase, set<ExpectationBase>>)
    requires Told(all, handled, behind)
    requires forall f :: f in all && f.callCount > 0 && f in less ==> f in behind && less[f] <= behind[f]
    ensures Told(all, handled, less)
  {
    hide Calls, Marked;
    CalledIn(all, handled);
  }

  lemma Retold(all: set<ExpectationBase>, handled: seq<Handled>, behind: map<ExpectationBase, set<ExpectationBase>>)
    requires Counted(all, handled) && Ordered(handled, behind) && WithinBounds(handled, behind) && Marked(handled)
    ensures Told(all, handled, behind)
  {
  }

  /** A call that is due continues the history. */
  lemma ToldMore(all: set<ExpectationBase>, handled: seq<Handled>, h: Handled)
    requires Sound(all) && Told(all, handled, Behind(all)) && h.expectation in all && !h.expectation.retired
    requires AllBeforeSatisfied(h.expectation, all) && h.excessive == (h.expectation.callCount >= h.expectation.max)
    ensures Counted(all, handled) && Ordered(handled + [h], Behind(all))
    ensures WithinBounds(handled + [h], Behind(all)) && Marked(handled + [h])
  {
    hide Before, Calls, WithinBounds, Marked, RetiredClosed;
    CalledIn(all, handled);
    MarkedMore(handled, h);
    WithinBoundsMore(handled, Behind(all), h);
  }

  /** Soundness, on a graph given by what is behind each expectation. */
  ghost predicate SoundBy(all: set<ExpectationBase>, behind: map<ExpectationBase, set<ExpectationBase>>)
    reads all`callCount, all`retired
  {
    all <= behind.Keys && forall f, x :: f in all && x in all && x in behind[f] ==>
      && (f.retired ==> x.retired)
      && (0 < f.callCount && 0 < f.max ==> x.retired && x.IsSatisfied())
  }

  lemma SoundBehind(all: set<ExpectationBase>)
    requires Sound(all)
    ensures SoundBy(all, Behind(all))
  {
    hide Before;
    forall f, x | f in all && x in all && f.retired && Before(x, f, all) ensures x.retired { ClosedBefore(x, f, all); }
  }

  /** Nothing changes if an expectation that is still unused gets more behind it. */
  lemma Extended(all: set<ExpectationBase>, handled: seq<Handled>, behind: map<ExpectationBase, set<ExpectationBase>>, e: ExpectationBase,
        edges: map<ExpectationBase, set<ExpectationBase>>)
    requires Acyclic(all) && Unused(e, all) && Covers(behind, e, all, edges) && SameEdges(e, all, edges)
    requires SoundBy(all, behind) && Told(all, handled, behind)
    ensures Sound(all) && Told(all, handled, Behind(all))
  {
    hide Before, Told;
    forall x, f | x in all && f in all && f != e && Before(x, f, all) ensures x in behind[f] { WasBehind(x, f, e, all, behind, edges); }
    forall f, p | f in all && f.retired && p in f.immediatePrerequisites ensures p.retired { Direct(f, all); }
    ToldOfLess(all, handled, behind, Behind(all));
  }

  lemma NotYetThere(e: ExpectationBase, all: set<ExpectationBase>)
    requires Sound(all) && e !in all
    ensures forall f :: f in all ==> e !in f.immediatePrerequisites
  {
  }

  /** ... or if a new one is registered. */
  lemma Registered(was: set<ExpectationBase>, e: ExpectationBase, handled: seq<Handled>)
    requires Sound(was) && Told(was, handled, Behind(was)) && e !in was
    requires e.immediatePrerequisites == {} && e.callCount == 0 && !e.retired
    requires forall f :: f in was ==> e !in f.immediatePrerequisites
    ensures Sound(was + {e}) && Told(was + {e}, handled, Behind(was + {e}))
  {
    hide Before, Ordered, WithinBounds, Marked, Calls;
    var all := was + {e};
    forall x, f | f in was ensures Before(x, f, all) == Before(x, f, was) { BeforeInLarger(x, f, was, all); }
    forall x, f | f in was && Before(x, f, was) ensures x in was { BeforeHasLowerRank(x, f, was); }
    NeverCalled(handled, e);
    assert Told(all, handled, Behind(was)) by { Retold(all, handled, Behind(was)); }
    NothingBehind(e, all);
    ToldOfLess(all, handled, Behind(was), Behind(all));
  }

  lemma NothingBehind(e: ExpectationBase, all: set<ExpectationBase>)
    requires Acyclic(all) && e in all && e.immediatePrerequisites == {}
    ensures forall x :: !Before(x, e, all)
  {
  }

  lemma CalledIn(all: set<ExpectationBase>, handled: seq<Handled>)
    requires Counted(all, handled)
    ensures forall h :: h in handled ==> h.expectation in all && h.expectation.callCount > 0
  {
    hide Calls;
    forall h | h in handled ensures h.expectation.callCount > 0 { NeverCalled(handled, h.expectation); }
  }

  lemma {:induction false} NeverCalled(handled: seq<Handled>, e: ExpectationBase)
    ensures Calls(handled, e) == 0 <==> forall h :: h in handled ==> h.expectation != e
  {
    if handled != [] {
      var front := handled[..|handled| - 1];
      NeverCalled(front, e);
      assert handled == front + [handled[|handled| - 1]];
    }
  }

  /** All expectations of a test and the calls they have handled so far. */
  class MockRun {
    ghost var all: set<ExpectationBase>
    ghost var handled: seq<Handled>
    var implicitSequence: Sequence?    // the global of the original, set within an InSequence

    ghost predicate Valid()
      reads this, all, implicitSequence
    {
      && Sound(all) && Told(all, handled, Behind(all))
      && (implicitSequence != null && implicitSequence.lastExpectation != null ==> implicitSequence.lastExpectation in all)
    }

    constructor ()
      ensures Valid() && all == {} && handled == [] && implicitSequence == null
    {
      all, handled, implicitSequence := {}, [], null;
    }

    /** The constructor of InSequence: an implicit sequence, unless there is one. */
    method EnterSequence() returns (sequenceCreated: bool)
      requires Valid()
      modifies this`implicitSequence
      ensures Valid() && implicitSequence != null && sequenceCreated == (old(implicitSequence) == null)
      ensures if sequenceCreated then implicitSequence.lastExpectation == null else implicitSequence == old(implicitSequence)
    {
      hide Sound, Told, Behind;
      sequenceCreated := implicitSequence == null;
      if sequenceCreated {
        implicitSequence := new Sequence();
      }
    }

    /** The destructor of InSequence. */
    method LeaveSequence(sequenceCreated: bool)
      requires Valid()
      modifies this`implicitSequence
      ensures Valid() && implicitSequence == if sequenceCreated then null else old(implicitSequence)
    {
      hide Sound, Told, Behind;
      if sequenceCreated {
        implicitSequence := null;
      }
    }

    /** The expectation is registered and, within an implicit sequence, put behind the last one there. */
    method AddNewExpectation(min: int, max: int, retiresOnSaturation: bool) returns (e: ExpectationBase)
      requires Valid()
      modifies this`all, implicitSequence
      ensures Valid() && fresh(e) && all == old(all) + {e} && Unused(e, all)
      ensures e.min == min && e.max == max && e.retiresOnSaturation == retiresOnSaturation
      ensures if implicitSequence == null || old(implicitSequence.lastExpectation) == null then e.immediatePrerequisites == {}
              else e.immediatePrerequisites == {old(implicitSequence.lastExpectation)}
      ensures implicitSequence != null ==> implicitSequence.lastExpectation == e
    {
      hide Sound, Told, Behind;
      e := Register(min, max, retiresOnSaturation);
      if implicitSequence != null {
        AddExpectation(implicitSequence, e);
      }
    }

    method Register(min: int, max: int, retiresOnSaturation: bool) returns (e: ExpectationBase)
      requires Valid()
      modifies this`all
      ensures Valid() && fresh(e) && all == old(all) + {e} && Unused(e, all) && e.immediatePrerequisites == {}
      ensures e.min == min && e.max == max && e.retiresOnSaturation == retiresOnSaturation
    {
      hide Before, Sound, Told, Behind;
      e := new ExpectationBase(min, max, retiresOnSaturation);
      NotYetThere(e, all);
      Registered(all, e, handled);
      all := all + {e};
    }

    /** `immediate_prerequisites_ += p` */
    method AddPrerequisite(e: ExpectationBase, p: ExpectationBase)
      requires Valid() && Unused(e, all) && p in all && p != e
      modifies e`immediatePrerequisites, e`rank
      ensures Valid() && Unused(e, all) && e.immediatePrerequisites == old(e.immediatePrerequisites) + {p}
    {
      hide Before, Sound, SoundBy, Told, Behind, Covers;
      SoundIsAcyclic(all);
      ghost var behind, edges := Behind(all), Edges(all);
      BehindCovers(e, all);
      SoundBehind(all);
      e.immediatePrerequisites := e.immediatePrerequisites + {p};
      e.rank := if e.rank <= p.rank then p.rank + 1 else e.rank;
      Extended(all, handled, behind, e, edges);
    }

    method After(e: ExpectationBase, s: set<ExpectationBase>)
      requires Valid() && Unused(e, all) && s <= all - {e}
      modifies e`immediatePrerequisites, e`rank
      ensures Valid() && Unused(e, all) && e.immediatePrerequisites == old(e.immediatePrerequisites) + s
    {
      hide Sound, Told, Behind;
      var todo := s;
      while todo != {}
        invariant todo <= s && Valid() && Unused(e, all)
        invariant e.immediatePrerequisites == old(e.immediatePrerequisites) + (s - todo)
      {
        var it :| it in todo;
        AddPrerequisite(e, it);
        todo := todo - {it};
      }
    }

    /** Sequence::AddExpectation: behind the last one, unless it is the last one. */
    method AddExpectation(sequence: Sequence, e: ExpectationBase)
      requires Valid() && Unused(e, all) && (sequence.lastExpectation != null ==> sequence.lastExpectation in all)
      modifies sequence, e`immediatePrerequisites, e`rank
      ensures Valid() && Unused(e, all) && sequence.lastExpectation == e
      ensures e.immediatePrerequisites == old(e.immediatePrerequisites) +
        (if old(sequence.lastExpectation) in {null, e} then {} else {old(sequence.lastExpectation)})
    {
      hide Sound, Told, Behind;
      if sequence.lastExpectation != e {
        if sequence.lastExpectation != null {
          AddPrerequisite(e, sequence.lastExpectation);
        }
        sequence.lastExpectation := e;
      }
    }

    ghost predicate ShouldHandle(e: ExpectationBase, matches: set<ExpectationBase>)
      requires Acyclic(all) && e in all
      reads this, all
    {
      !e.retired && AllBeforeSatisfied(e, all) && e in matches
    }

    ghost predicate NoneFrom(expectations: seq<ExpectationBase>, i: nat, matches: set<ExpectationBase>)
      requires Acyclic(all) && forall e :: e in expectations ==> e in all
      reads this, all
    {
      forall j :: i <= j < |expectations| ==> !ShouldHandle(expectations[j], matches)
    }

    /** The youngest expectation that is active, has its prerequisites satisfied and matches the arguments. */
    method FindMatchingExpectation(expectations: seq<ExpectationBase>, matches: set<ExpectationBase>)
      returns (match_: ExpectationBase?)
      requires Valid() && forall e :: e in expectations ==> e in all
      ensures match_ == null ==> NoneFrom(expectations, 0, matches)
      ensures match_ != null ==> match_ in expectations && !match_.retired && match_ in matches
      ensures match_ != null ==> forall p :: p in all && Before(p, match_, all) ==> p.min <= p.callCount <= p.max
      ensures match_ != null ==>
        exists k :: 0 <= k < |expectations| && expectations[k] == match_ && NoneFrom(expectations, k + 1, matches)
    {
      var i := |expectations|;
      while i > 0
        invariant 0 <= i <= |expectations| && NoneFrom(expectations, i, matches)
      {
        i := i - 1;
        var e := expectations[i];
        var satisfied := e.AllPrerequisitesAreSatisfied(all);
        if !e.retired && satisfied && e in matches {
          return e;
        }
      }
      return null;
    }

    /**
     The bookkeeping of a handled call. An excessive one retires nothing; but unless the expectation may not be
     called at all, an earlier call has retired what had to come before.
     */
    method GetActionForArguments(e: ExpectationBase) returns (excessive: bool)
      requires Valid() && e in all && !e.retired && AllBeforeSatisfied(e, all)
      modifies this`handled, all`retired, e`callCount
      ensures Valid() && handled == old(handled) + [Handled(e, excessive)]
      ensures excessive == (old(e.callCount) >= e.max) && e.callCount == old(e.callCount) + 1
      ensures forall x :: x in all ==>
        x.retired == (old(x.retired) || (!excessive && (Before(x, e, all) || (x == e && e.retiresOnSaturation && e.callCount >= e.max))))
      ensures AllBeforeRetired(e, all) <==> 0 < e.max || old(AllBeforeRetired(e, all))
    {
      hide Before, Sound, Told, Behind, Calls, Ordered, WithinBounds, Marked;
      SoundIsAcyclic(all);
      ghost var behind := Behind(all);
      ghost var more := handled + [Handled(e, e.callCount >= e.max)];
      ToldMore(all, handled, Handled(e, e.callCount >= e.max));
      CountedMore(handled, Handled(e, e.callCount >= e.max));
      excessive := e.Handle(all);
      assert Counted(all, more);
      assert Told(all, more, behind) by { Retold(all, more, behind); }
      handled := more;
    }
  }

  /**
   In every run: a call of an expectation that may be called at all comes after every call of any of its
   prerequisites, excessive or not.
   */
  lemma PrerequisitesComeFirst(run: MockRun, i: nat, j: nat)
    requires run.Valid() && i < |run.handled| && j < |run.handled| && 0 < run.handled[i].expectation.max
    requires Before(run.handled[j].expectation, run.handled[i].expectation, run.all)
    ensures j < i
  {
    BeforeHasLowerRank(run.handled[j].expectation, run.handled[i].expectation, run.all);
  }

  /**
   A whole test: for each call, given by the expectations it matches, the one that handles it is found and does so;
   a call that none handles is unexpected. Then, of every call that was handled: each transitive prerequisite had
   been called at least its lower and at most its upper bound of times before; it was excessive exactly if its own
   expectation had been called up to its upper bound before; and an expectation that retires on saturation was not
   called beyond that bound.
   */
  method Play(run: MockRun, expectations: seq<ExpectationBase>, calls: seq<set<ExpectationBase>>)
    returns (unexpected: nat)
    requires run.Valid() && forall e :: e in expectations ==> e in run.all
    modifies run`handled, run.all`retired, run.all`callCount
    ensures run.Valid() && old(run.handled) <= run.handled
    ensures |run.handled| + unexpected == |old(run.handled)| + |calls|
    ensures forall i, p :: 0 <= i < |run.handled| && p in run.all && Before(p, run.handled[i].expectation, run.all) ==>
      p.min <= Calls(run.handled[..i], p) <= p.max
    ensures forall i :: 0 <= i < |run.handled| ==>
      (run.handled[i].excessive <==> Calls(run.handled[..i], run.handled[i].expectation) >= run.handled[i].expectation.max)
    ensures forall e :: e in run.all && e.retiresOnSaturation && 0 < e.max ==> Calls(run.handled, e) <= e.max
  {
    hide Before, Sound, Told, Behind, Calls;
    unexpected := 0;
    for k := 0 to |calls|
      invariant run.Valid() && old(run.handled) <= run.handled
      invariant |run.handled| + unexpected == |old(run.handled)| + k
    {
      var found := run.FindMatchingExpectation(expectations, calls[k]);
      if found == null {
        unexpected := unexpected + 1;
      } else {
        var _ := run.GetActionForArguments(found);
      }
    }
    WhatIsTold(run);
  }

  lemma WhatIsTold(run: MockRun)
    requires run.Valid()
    ensures forall h :: h in run.handled ==> h.expectation in run.all
    ensures forall i, p :: 0 <= i < |run.handled| && p in run.all && Before(p, run.handled[i].expectation, run.all) ==>
      p.min <= Calls(run.handled[..i], p) <= p.max
    ensures forall i :: 0 <= i < |run.handled| ==>
      (run.handled[i].excessive <==> Calls(run.handled[..i], run.handled[i].expectation) >= run.handled[i].expectation.max)
    ensures forall e :: e in run.all && e.retiresOnSaturation && 0 < e.max ==> Calls(run.handled, e) <= e.max
  {
    hide Before, Calls;
  }

  lemma {:induction false} BeforeChains(x: ExpectationBase, y: ExpectationBase, e: ExpectationBase, all: set<ExpectationBase>)
    requires Acyclic(all) && e in all && y in all && Before(x, y, all) && Before(y, e, all)
    ensures Before(x, e, all)
    decreases e.rank
  {
    var q :| q in e.immediatePrerequisites && (q == y || Before(y, q, all));
    if q != y { BeforeChains(x, y, q, all); }
  }

  /**
   The order fails exactly for the others: after a call of an expectation that may not be called at all, any
   prerequisite that had not retired can still be called.
   */
  method PrerequisiteComesLast(run: MockRun, e: ExpectationBase, p: ExpectationBase)
    requires run.Valid() && e in run.all && !e.retired && AllBeforeSatisfied(e, run.all) && e.max <= 0
    requires p in run.all && Before(p, e, run.all) && !p.retired
    modifies run`handled, run.all`retired, e`callCount, p`callCount
    ensures run.Valid() && |run.handled| == |old(run.handled)| + 2
    ensures run.handled[|run.handled| - 2] == Handled(e, true) && run.handled[|run.handled| - 1].expectation == p
    ensures Before(p, e, run.all)
  {
    hide Before, Sound, Told, Behind;
    SoundIsAcyclic(run.all);
    forall x | x in run.all && Before(x, p, run.all) ensures Before(x, e, run.all) { BeforeChains(x, p, e, run.all); }
    BeforeHasLowerRank(p, e, run.all);
    forall x | x in run.all && Before(x, e, run.all) ensures x != e { BeforeHasLowerRank(x, e, run.all); }
    var _ := run.GetActionForArguments(e);
    var _ := run.GetActionForArguments(p);
  }

  /** An expectation that may not be called at all, and its prerequisite, which may be called once. */
  method NeverAfterOnce() returns (run: MockRun, p: ExpectationBase, e: ExpectationBase)
    ensures fresh(run) && fresh(p) && fresh(e) && run.Valid() && run.handled == [] && run.all == {p, e} && p != e
    ensures e.immediatePrerequisites == {p} && p.immediatePrerequisites == {} && p.min == 0 && p.max == 1 && e.max == 0
    ensures p.callCount == e.callCount == 0 && !p.retired && !e.retired
  {
    hide Before, BeforeSome, Sound, Told, Behind;
    run := new MockRun();
    p := run.AddNewExpectation(0, 1, false);
    e := run.AddNewExpectation(0, 0, false);
    run.AddPrerequisite(e, p);
  }

  /** What is behind an expectation with one prerequisite, or none. */
  lemma OneBefore(e: ExpectationBase, p: ExpectationBase, all: set<ExpectationBase>)
    requires Acyclic(all) && e in all && p in all && e.immediatePrerequisites == {p} && p.immediatePrerequisites == {}
    ensures Before(p, e, all) && forall x :: (Before(x, e, all) ==> x == p) && !Before(x, p, all)
  {
  }

  /** Such a run: the call of an expectation with Times(0) comes before the call of its prerequisite. */
  method NeverComesFirst() returns (run: MockRun)
    ensures run.Valid() && |run.handled| == 2 && run.handled[0].expectation.max == 0 && run.handled[0].excessive
    ensures Before(run.handled[1].expectation, run.handled[0].expectation, run.all)
  {
    hide Before, BeforeSome, Sound, Told, Behind;
    var p, e;
    run, p, e := NeverAfterOnce();
    SoundIsAcyclic(run.all);
    OneBefore(e, p, run.all);
    PrerequisiteComesLast(run, e, p);
  }

  lemma SoundIsAcyclic(all: set<ExpectationBase>)
    requires Sound(all)
    ensures Acyclic(all)
  {
  }
}
