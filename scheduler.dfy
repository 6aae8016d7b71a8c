/** The scheduler: a builder that collects actions and requested names, and
    a run that releases each selected action once all its predecessors have
    finished, producing one linear execution order. */
module Scheduling {
  import opened Wrappers
  import opened Actions
  import opened Selection

  /** The set of elements of `s`. */
  function Elems<T>(s: seq<T>): set<T>
  {
    if |s| == 0 then {} else Elems(s[..|s| - 1]) + {s[|s| - 1]}
  }

  lemma {:induction false} ElemsMembership<T>(s: seq<T>, x: T)
    ensures x in Elems(s) <==> x in s
  {
    if |s| > 0 {
      ElemsMembership(s[..|s| - 1], x);
      assert s == s[..|s| - 1] + [s[|s| - 1]];
    }
  }

  lemma ElemsAppend<T>(s: seq<T>, x: T)
    ensures Elems(s + [x]) == Elems(s) + {x}
  {
    assert (s + [x])[..|s|] == s;
  }

  /** `order` is a run so far: each action, when it ran, was selected, had
      not run before, and found all its predecessors finished. */
  predicate RunPrefix(g: Graph, order: seq<ActionId>)
  {
    if |order| == 0 then true
    else
      var init, last := order[..|order| - 1], order[|order| - 1];
      && RunPrefix(g, init)
      && last in g.preds
      && last !in Elems(init)
      && g.preds[last] <= Elems(init)
  }

  /** `order` is a complete run: every selected action exactly once, each
      after all its predecessors. */
  predicate ValidOrder(g: Graph, order: seq<ActionId>)
  {
    RunPrefix(g, order) && Elems(order) == g.preds.Keys
  }

  /** Actions that can never be released: each waits for another one of them. */
  predicate Stuck(g: Graph, s: set<ActionId>)
  {
    s <= g.preds.Keys && forall a :: a in s ==> g.preds[a] * s != {}
  }

  /** Position of the first occurrence of `x` in `s`. */
  function IndexOf<T(==)>(s: seq<T>, x: T): (k: nat)
    requires x in s
    ensures k < |s| && s[k] == x
    ensures forall i :: 0 <= i < k ==> s[i] != x
  {
    if s[0] == x then 0 else 1 + IndexOf(s[1..], x)
  }

  /** `x` runs before `y` in `order`. */
  predicate Before(order: seq<ActionId>, x: ActionId, y: ActionId)
  {
    x in order && y in order && IndexOf(order, x) < IndexOf(order, y)
  }

  /** Appending does not move what is already in a sequence. */
  lemma IndexOfAppend<T>(s: seq<T>, y: T, x: T)
    requires x in s
    ensures IndexOf(s + [y], x) == IndexOf(s, x)
  {
    var k := IndexOf(s, x);
    var k' := IndexOf(s + [y], x);
    assert (s + [y])[k] == x;
  }

  lemma IndexOfLast<T>(s: seq<T>, y: T)
    requires y !in s
    ensures IndexOf(s + [y], y) == |s|
  {
    var k := IndexOf(s + [y], y);
  }

  /** In a run, every predecessor of a finished action finished earlier. */
  lemma {:induction false} PredecessorRunsBefore(g: Graph, order: seq<ActionId>, p: ActionId, a: ActionId)
    requires RunPrefix(g, order)
    requires a in order && a in g.preds && p in g.preds[a]
    ensures Before(order, p, a)
  {
    var init, last := order[..|order| - 1], order[|order| - 1];
    assert order == init + [last];
    ElemsMembership(init, last);
    if a == last {
      ElemsMembership(init, p);
      IndexOfAppend(init, last, p);
      IndexOfLast(init, last);
    } else {
      assert a in init;
      PredecessorRunsBefore(g, init, p, a);
      IndexOfAppend(init, last, p);
      IndexOfAppend(init, last, a);
    }
  }

  /** In a complete run every edge is respected. */
  lemma EdgeRespected(g: Graph, order: seq<ActionId>, p: ActionId, a: ActionId)
    requires ValidOrder(g, order)
    requires a in g.preds && p in g.preds[a]
    ensures Before(order, p, a)
  {
    ElemsMembership(order, a);
    PredecessorRunsBefore(g, order, p, a);
  }

  /** "Runs before" is transitive along a chain of predecessors. */
  lemma BeforeTransitive(order: seq<ActionId>, x: ActionId, y: ActionId, z: ActionId)
    requires Before(order, x, y) && Before(order, y, z)
    ensures Before(order, x, z)
  {
  }

  /** A run never runs an action twice. */
  lemma {:induction false} RunPrefixDistinct(g: Graph, order: seq<ActionId>)
    requires RunPrefix(g, order)
    ensures |Elems(order)| == |order|
    ensures forall i, j :: 0 <= i < j < |order| ==> order[i] != order[j]
  {
    if |order| > 0 {
      var init, last := order[..|order| - 1], order[|order| - 1];
      RunPrefixDistinct(g, init);
      forall i | 0 <= i < |init|
        ensures init[i] != last
      {
        ElemsMembership(init, last);
      }
    }
  }

  /** A run only runs selected actions. */
  lemma {:induction false} RunPrefixSelected(g: Graph, order: seq<ActionId>)
    requires RunPrefix(g, order)
    ensures Elems(order) <= g.preds.Keys
  {
    if |order| > 0 {
      RunPrefixSelected(g, order[..|order| - 1]);
    }
  }

  /** A complete run runs every selected action exactly once. */
  lemma ValidOrderRunsEachOnce(g: Graph, order: seq<ActionId>)
    requires ValidOrder(g, order)
    ensures |order| == |g.preds.Keys|
  {
    RunPrefixDistinct(g, order);
  }

  /** Whenever a complete run exists, no set of actions is stuck. */
  lemma OrderedGraphNeverStuck(g: Graph, order: seq<ActionId>, s: set<ActionId>)
    requires ValidOrder(g, order) && Stuck(g, s)
    ensures s == {}
  {
    RunAvoidsStuck(g, order, s);
  }

  lemma {:induction false} RunAvoidsStuck(g: Graph, order: seq<ActionId>, s: set<ActionId>)
    requires RunPrefix(g, order) && Stuck(g, s)
    ensures Elems(order) * s == {}
  {
    if |order| > 0 {
      var init, last := order[..|order| - 1], order[|order| - 1];
      RunAvoidsStuck(g, init, s);
    }
  }

  /** A rank that grows along every edge. */
  predicate Ranked(g: Graph, rank: ActionId -> nat)
  {
    forall a, p :: a in g.preds && p in g.preds[a] ==> rank(p) < rank(a)
  }

  /** A graph whose edges all climb a rank has no stuck set, so its run
      releases every selected action. */
  lemma RankedGraphNeverStuck(g: Graph, rank: ActionId -> nat, s: set<ActionId>)
    requires Ranked(g, rank) && Stuck(g, s)
    ensures s == {}
  {
    if s != {} {
      var a :| a in s;
      NothingStuckBelow(g, rank, s, rank(a), a);
    }
  }

  lemma {:induction false} NothingStuckBelow(g: Graph, rank: ActionId -> nat, s: set<ActionId>, r: nat, a: ActionId)
    requires Ranked(g, rank) && Stuck(g, s)
    requires rank(a) <= r
    ensures a !in s
  {
    if a in s {
      var p :| p in g.preds[a] * s;
      if r > 0 {
        NothingStuckBelow(g, rank, s, r - 1, p);
      }
    }
  }

  /** Action types on levels: every dependency names a type on a lower level
      and every implied type lies on a higher one. */
  predicate TypeLayered(reg: map<ActionId, Action>, level: string -> nat)
  {
    && (forall x, d :: x in reg && d in reg[x].dependencies ==> level(d.targetType) < level(x.actionType))
    && (forall x, t :: x in reg && t in reg[x].impliedTypeNames ==> level(x.actionType) < level(t))
  }

  /** In a registry whose types are layered, every edge of a built run climbs
      the levels. */
  lemma LayeredBuildRanked(reg: map<ActionId, Action>, names: seq<string>, level: string -> nat)
    requires BuildGraph(reg, names).Success?
    requires TypeLayered(reg, level)
    ensures Ranked(BuildGraph(reg, names).value, (id: ActionId) => level(id.actionType))
  {
    var g := BuildGraph(reg, names).value;
    var sel := Close(reg, ResolveNames(reg, names).value);
    forall a, p | a in g.preds && p in g.preds[a]
      ensures level(p.actionType) < level(a.actionType)
    {
      assert p in Predecessors(reg, sel, a);
      if DependsOn(reg[a], p) {
        var d :| d in reg[a].dependencies && Matches(d, p);
      }
    }
  }

  /** ... and so no set of its actions is ever stuck: the run releases every
      selected action. */
  lemma LayeredBuildNeverStuck(reg: map<ActionId, Action>, names: seq<string>, level: string -> nat, s: set<ActionId>)
    requires BuildGraph(reg, names).Success?
    requires TypeLayered(reg, level)
    requires Stuck(BuildGraph(reg, names).value, s)
    ensures s == {}
  {
    LayeredBuildRanked(reg, names, level);
    RankedGraphNeverStuck(BuildGraph(reg, names).value, (id: ActionId) => level(id.actionType), s);
  }

  /** Appending an action whose predecessors have all finished extends a run. */
  lemma ExtendRunPrefix(g: Graph, order: seq<ActionId>, a: ActionId)
    requires RunPrefix(g, order)
    requires a in g.preds && a !in Elems(order) && g.preds[a] <= Elems(order)
    ensures RunPrefix(g, order + [a])
    ensures Elems(order + [a]) == Elems(order) + {a}
  {
    ElemsAppend(order, a);
    assert (order + [a])[..|order|] == order;
  }

  lemma EmptyDifferenceSubset(ps: set<ActionId>, done: set<ActionId>)
    requires |ps - done| == 0
    ensures ps <= done
  {
    assert ps - done == {};
    forall x | x in ps
      ensures x in done
    {
      assert x !in ps - done;
    }

  }

  lemma RemoveOneCardinality(ps: set<ActionId>, done: set<ActionId>, a: ActionId)
    requires a !in done
    ensures a in ps ==> |ps - (done + {a})| == |ps - done| - 1
    ensures a !in ps ==> |ps - (done + {a})| == |ps - done|
  {
    if a in ps {
      assert ps - done == (ps - (done + {a})) + {a};
    } else {
      assert ps - (done + {a}) == ps - done;
    }
  }

  /** Each pending action's count is its number of unfinished predecessors. */
  ghost predicate CountsMatch(g: Graph, counts: map<ActionId, nat>, done: set<ActionId>)
  {
    forall d :: d in counts ==> d in g.preds && counts[d] == |g.preds[d] - done|
  }

  /** The ready counts after `a` finishes: `a` leaves the pending set and
      each pending action that waited for `a` has one unfinished
      predecessor fewer. */
  function Decremented(g: Graph, counts: map<ActionId, nat>, ghost done: set<ActionId>, a: ActionId): (r: map<ActionId, nat>)
    requires a !in done
    requires CountsMatch(g, counts, done)
    ensures r.Keys == counts.Keys - {a}
    ensures CountsMatch(g, r, done + {a})
  {
    var pending := counts.Keys - {a};
    var r := map d | d in pending ::
      if a in g.preds[d] then
        assert a in g.preds[d] - done;
        counts[d] - 1
      else counts[d];
    assert r.Keys == pending;
    assert forall d :: d in r ==> r[d] == |g.preds[d] - (done + {a})| by {
      forall d | d in r
        ensures r[d] == |g.preds[d] - (done + {a})|
      {
        RemoveOneCardinality(g.preds[d], done, a);
      }
    }
    r
  }

  /** When the run halts with no ready action, the pending actions form a
      stuck set. */
  lemma NoReadyActionIsStuck(g: Graph, counts: map<ActionId, nat>, done: set<ActionId>)
    requires WellFormed(g)
    requires counts.Keys == g.preds.Keys - done
    requires CountsMatch(g, counts, done)
    requires forall a :: a in counts ==> counts[a] != 0
    ensures Stuck(g, counts.Keys)
  {
    forall a | a in counts.Keys
      ensures g.preds[a] * counts.Keys != {}
    {
      assert |g.preds[a] - done| != 0;
      var p :| p in g.preds[a] - done;
      assert p in g.preds[a] * counts.Keys;
    }
  }

  /** A run after which nothing selected is left pending is complete. */
  lemma FinishedRunIsComplete(g: Graph, order: seq<ActionId>, pending: set<ActionId>)
    requires RunPrefix(g, order) && pending == g.preds.Keys - Elems(order)
    ensures pending == {} ==> ValidOrder(g, order)
  {
    RunPrefixSelected(g, order);
  }

  lemma PrefixAppend<T>(s: seq<T>, t: seq<T>, x: T)
    requires s <= t
    ensures s <= t + [x]
  {
    assert (t + [x])[..|s|] == t[..|s|];
  }

  /** `ActionScheduler.Builder`: the registered actions, keyed by identity,
      and the requested names in the order they were added. */
  class Builder {
    var actions: map<ActionId, Action>
    var targetNames: seq<string>

    ghost predicate Valid()
      reads this
    {
      KeyedById(actions)
    }

    constructor ()
      ensures Valid() && actions == map[] && targetNames == []
    {
      actions := map[];
      targetNames := [];
    }

    /** Registers `a`; an identity that is already registered is refused and
        nothing changes. */
    method AddAction(a: Action) returns (added: bool)
      requires Valid()
      modifies this
      ensures Valid()
      ensures added <==> a.id !in old(actions)
      ensures actions == if added then old(actions)[a.id := a] else old(actions)
      ensures targetNames == old(targetNames)
    {
      added := a.id !in actions;
      if added {
        actions := actions[a.id := a];
      }
    }

    method AddTargetName(name: string)
      modifies this
      ensures targetNames == old(targetNames) + [name]
      ensures actions == old(actions)
    {
      targetNames := targetNames + [name];
    }

    /** Resolves the requested names, expands the selection to a fixed point
        and resolves each selected action's predecessors. */
    method Build() returns (r: Result<Graph, BuildError>)
      ensures r == BuildGraph(actions, targetNames)
    {
      var seeds: set<ActionId> := {};
      var i := 0;
      while i < |targetNames|
        invariant 0 <= i <= |targetNames|
        invariant ResolveNames(actions, targetNames[..i]) == Success(seeds)
      {
        var matched := Matching(actions, ParseTargetName(targetNames[i]));
        assert targetNames[..i + 1][..i] == targetNames[..i];
        if matched == {} {
          ResolvePrefixFailure(actions, targetNames, i + 1);
          return Failure(UnknownTarget(targetNames[i]));
        }
        seeds := seeds + matched;
        i := i + 1;
      }
      assert targetNames[..i] == targetNames;
      var selected := seeds;
      var next := selected + Successors(actions, selected);
      while next != selected
        invariant selected <= next <= actions.Keys
        invariant next == selected + Successors(actions, selected)
        invariant Close(actions, selected) == Close(actions, seeds)
        decreases |actions.Keys - selected|
      {
        StrictSubsetSmaller(actions.Keys - next, actions.Keys - selected);
        selected := next;
        next := selected + Successors(actions, selected);
      }
      r := Success(ResolveEdges(actions, selected));
    }
  }

  /** `ActionScheduler`: the resolved run, a ready count per pending action
      (its unfinished predecessors) and the actions finished so far. */
  class Scheduler {
    const graph: Graph
    var readyCount: map<ActionId, nat>
    var completed: seq<ActionId>

    ghost predicate Valid()
      reads this
    {
      && WellFormed(graph)
      && RunPrefix(graph, completed)
      && readyCount.Keys == graph.preds.Keys - Elems(completed)
      && CountsMatch(graph, readyCount, Elems(completed))
    }

    /** Every selected action starts pending with a count equal to its
        number of predecessors. */
    constructor (g: Graph)
      requires WellFormed(g)
      ensures Valid() && graph == g && completed == []
      ensures forall a :: a in g.preds ==> a in readyCount && readyCount[a] == |g.preds[a]|
    {
      graph := g;
      completed := [];
      readyCount := map a | a in g.preds :: |g.preds[a]|;
    }

    /** Runs one ready action and lowers the count of each pending action
        that waited for it. */
    method Complete(a: ActionId)
      requires Valid() && a in readyCount && readyCount[a] == 0
      modifies this
      ensures Valid()
      ensures completed == old(completed) + [a]
      ensures readyCount.Keys == old(readyCount.Keys) - {a}
    {
      ghost var done := Elems(completed);
      EmptyDifferenceSubset(graph.preds[a], done);
      ExtendRunPrefix(graph, completed, a);
      readyCount := Decremented(graph, readyCount, done, a);
      completed := completed + [a];
    }

    /** Releases ready actions one at a time until none is ready.  The
        returned set is what never ran: empty exactly when the run finished,
        and otherwise each of its actions waits for another of them (a cycle
        or something downstream of one). */
    method Run() returns (stuck: set<ActionId>)
      requires Valid()
      modifies this
      ensures Valid()
      ensures old(completed) <= completed
      ensures stuck == graph.preds.Keys - Elems(completed)
      ensures Stuck(graph, stuck)
      ensures stuck == {} ==> ValidOrder(graph, completed)
    {
      ghost var start := completed;
      while exists a :: a in readyCount && readyCount[a] == 0
        invariant Valid()
        invariant start <= completed
        decreases |readyCount.Keys|
      {
        var a :| a in readyCount && readyCount[a] == 0;
        ghost var pending := readyCount.Keys;
        ghost var before := completed;
        Complete(a);
        PrefixAppend(start, before, a);
        StrictSubsetSmaller(readyCount.Keys, pending);
      }
      stuck := readyCount.Keys;
      ghost var done := Elems(completed);
      NoReadyActionIsStuck(graph, readyCount, done);
      FinishedRunIsComplete(graph, completed, stuck);
    }
  }
}
