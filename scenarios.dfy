/** The scheduler's own test scenarios, stated over the model: the
    registries the tests build, what the build selects, which actions the
    run orders before which, and that every run finishes. */
module Scenarios {
  import opened Wrappers
  import opened Actions
  import opened Selection
  import opened BuildProperties
  import opened Scheduling

  /** The three nodes of the test cluster (`node[0-2]`). */
  predicate TestNode(n: string)
  {
    n == "node0" || n == "node1" || n == "node2"
  }

  /** An action without dependencies, implied types or delay. */
  function Plain(t: string, n: string): Action
  {
    Action(ActionId(t, n), [], [], 0)
  }

  // ---------------------------------------------------------------------
  // Creating and closing a scheduler with nothing to do.

  /** A builder with no actions and no names builds an empty run, and the
      run finishes at once. */
  method CreateDestroy() returns (order: seq<ActionId>, stuck: set<ActionId>)
    ensures order == [] && stuck == {}
  {
    var b := new Builder();
    var r := b.Build();
    assert r == Success(ResolveEdges(map[], {}));
    var s := new Scheduler(r.value);
    stuck := s.Run();
    order := s.completed;
  }

  // ---------------------------------------------------------------------
  // A name that names nothing.

  /** Requesting a name (such as "unknownTarget") that names no registered
      action fails the build with an "Unknown target" message naming it. */
  method InvalidTargetName(name: string) returns (r: Result<Graph, BuildError>)
    ensures r == Failure(UnknownTarget(name))
    ensures ErrorMessage(r.error)[..14] == "Unknown target"
  {
    var b := new Builder();
    b.AddTargetName(name);
    assert Matching(b.actions, ParseTargetName(name)) == {};
    r := b.Build();
    assert b.targetNames == [name];
    assert ResolveNames(b.actions, b.targetNames[..0]) == Success({});
    assert ResolveNames(b.actions, b.targetNames) == Failure(UnknownTarget(name));
  }

  // ---------------------------------------------------------------------
  // testRunActions: one action of the same type on every node.

  /** The registry holds exactly one action of type `t`, without
      dependencies or implied types, on each node. */
  ghost predicate OnePerNode(reg: map<ActionId, Action>, t: string, nodes: seq<string>)
  {
    && (forall id :: id in reg <==> id.actionType == t && id.scope in nodes)
    && (forall id :: id in reg ==> reg[id] == Plain(t, id.scope))
  }

  /** Registering one action of type `t` per node of a non-empty cluster and
      requesting `t` runs the action on every node, each exactly once. */
  method RunActions(t: string, nodes: seq<string>) returns (order: seq<ActionId>, stuck: set<ActionId>)
    requires ':' !in t && |nodes| > 0
    ensures stuck == {}
    ensures forall n :: n in nodes ==> ActionId(t, n) in order
    ensures forall x :: x in order ==> x.actionType == t && x.scope in nodes
    ensures forall i, j :: 0 <= i < j < |order| ==> order[i] != order[j]
  {
    var b := new Builder();
    var i := 0;
    while i < |nodes|
      invariant 0 <= i <= |nodes|
      invariant b.Valid() && b.targetNames == []
      invariant OnePerNode(b.actions, t, nodes[..i])
    {
      var added := b.AddAction(Plain(t, nodes[i]));
      assert nodes[..i + 1] == nodes[..i] + [nodes[i]];
      i := i + 1;
    }
    assert nodes[..i] == nodes;
    b.AddTargetName(t);
    OnePerNodeBuild(b.actions, b.targetNames, t, nodes);
    OnePerNodeIndependent(b.actions, b.targetNames, t, nodes);
    var r := b.Build();
    var s := new Scheduler(r.value);
    stuck := s.Run();
    order := s.completed;
    RunPrefixDistinct(r.value, order);
    forall x | x in order
      ensures x.actionType == t && x.scope in nodes
    {
      ElemsMembership(order, x);
    }
    forall n | n in nodes
      ensures ActionId(t, n) in order
    {
      ElemsMembership(order, ActionId(t, n));
    }
  }

  /** Requesting `t` selects every action of the registry, and none waits
      for another. */
  lemma OnePerNodeBuild(reg: map<ActionId, Action>, names: seq<string>, t: string, nodes: seq<string>)
    requires OnePerNode(reg, t, nodes) && names == [t] && ':' !in t && |nodes| > 0
    ensures BuildGraph(reg, names).Success?
    ensures BuildGraph(reg, names).value.preds.Keys == reg.Keys
  {
    assert ParseTargetName(names[0]) == TargetId(t, None);
    assert ActionId(t, nodes[0]) in Matching(reg, ParseTargetName(names[0]));
    assert AllResolve(reg, names);
    BuildFailsOnUnknownTarget(reg, names);
    var g := BuildGraph(reg, names).value;
    forall id | id in reg
      ensures id in g.preds
    {
      assert Matches(ParseTargetName(names[0]), id);
      BuildSelectsRequested(reg, names, id);
    }
  }

  /** ... and no action of that run waits for another. */
  lemma OnePerNodeIndependent(reg: map<ActionId, Action>, names: seq<string>, t: string, nodes: seq<string>)
    requires OnePerNode(reg, t, nodes)
    requires BuildGraph(reg, names).Success?
    ensures forall a :: a in BuildGraph(reg, names).value.preds ==> BuildGraph(reg, names).value.preds[a] == {}
  {
    forall a | a in BuildGraph(reg, names).value.preds
      ensures BuildGraph(reg, names).value.preds[a] == {}
    {
      BuildIndependent(reg, names, a);
    }
  }

  // ---------------------------------------------------------------------
  // testContainedDependencies: foo on node0; on every node bar (waits for
  // every foo, implies baz and quux), baz, and quux (waits for baz on its
  // own node).

  predicate Distinct4(a: string, b: string, c: string, d: string)
  {
    a != b && a != c && a != d && b != c && b != d && c != d
  }

  function ContainedAction(id: ActionId, foo: string, bar: string, baz: string, quux: string): Action
  {
    if id.actionType == bar then Action(id, [TargetId(foo, None)], [baz, quux], 0)
    else if id.actionType == quux then Action(id, [TargetId(baz, Some(id.scope))], [], 0)
    else Plain(id.actionType, id.scope)
  }

  ghost predicate ContainedRegistry(reg: map<ActionId, Action>, nodes: set<string>, node0: string,
                                    foo: string, bar: string, baz: string, quux: string)
  {
    && node0 in nodes
    && (forall id :: id in reg <==>
          || id == ActionId(foo, node0)
          || (id.scope in nodes && (id.actionType == bar || id.actionType == baz || id.actionType == quux)))
    && (forall id :: id in reg ==> reg[id] == ContainedAction(id, foo, bar, baz, quux))
  }

  /** Requesting the bare types foo and bar builds: each name is an unscoped
      reference, and each names a registered action ... */
  lemma ContainedBuildSucceeds(reg: map<ActionId, Action>, names: seq<string>, nodes: set<string>, node0: string,
                               foo: string, bar: string, baz: string, quux: string)
    requires ContainedRegistry(reg, nodes, node0, foo, bar, baz, quux) && Distinct4(foo, bar, baz, quux)
    requires names == [foo, bar] && ':' !in foo && ':' !in bar
    ensures BuildGraph(reg, names).Success?
    ensures ParseTargetName(names[0]) == TargetId(foo, None)
    ensures ParseTargetName(names[1]) == TargetId(bar, None)
  {
    assert ActionId(foo, node0) in Matching(reg, ParseTargetName(names[0]));
    assert ActionId(bar, node0) in Matching(reg, ParseTargetName(names[1]));
    assert AllResolve(reg, names);
    BuildFailsOnUnknownTarget(reg, names);
  }

  /** ... and pulls in every registered action: baz and quux come in only
      as types that bar implies. */
  lemma ContainedBuild(reg: map<ActionId, Action>, names: seq<string>, nodes: set<string>, node0: string,
                       foo: string, bar: string, baz: string, quux: string)
    requires ContainedRegistry(reg, nodes, node0, foo, bar, baz, quux) && Distinct4(foo, bar, baz, quux)
    requires names == [foo, bar] && ':' !in foo && ':' !in bar
    ensures BuildGraph(reg, names).Success?
    ensures BuildGraph(reg, names).value.preds.Keys == reg.Keys
  {
    ContainedBuildSucceeds(reg, names, nodes, node0, foo, bar, baz, quux);
    var g := BuildGraph(reg, names).value;
    var bar0 := ActionId(bar, node0);
    assert bar0 in reg;
    assert reg[bar0].impliedTypeNames == [baz, quux];
    assert Matches(ParseTargetName(names[1]), bar0);
    BuildSelectsRequested(reg, names, bar0);
    forall id | id in reg
      ensures id in g.preds
    {
      if id.actionType == foo {
        assert Matches(ParseTargetName(names[0]), id);
        BuildSelectsRequested(reg, names, id);
      } else if id.actionType == bar {
        assert Matches(ParseTargetName(names[1]), id);
        BuildSelectsRequested(reg, names, id);
      } else {
        assert Implies(reg[bar0], id);
        BuildSelectsImplied(reg, names, bar0, id);
      }
    }
  }

  /** On every node bar waits for foo@node0, baz waits for bar (which
      implies it), and quux waits for baz. */
  lemma ContainedEdges(reg: map<ActionId, Action>, names: seq<string>, nodes: set<string>, node0: string,
                       foo: string, bar: string, baz: string, quux: string, n: string)
    requires ContainedRegistry(reg, nodes, node0, foo, bar, baz, quux) && Distinct4(foo, bar, baz, quux)
    requires names == [foo, bar] && ':' !in foo && ':' !in bar
    requires n in nodes
    ensures BuildGraph(reg, names).Success?
    ensures var g := BuildGraph(reg, names).value;
            && ActionId(bar, n) in g.preds && ActionId(foo, node0) in g.preds[ActionId(bar, n)]
            && ActionId(baz, n) in g.preds && ActionId(bar, n) in g.preds[ActionId(baz, n)]
            && ActionId(quux, n) in g.preds && ActionId(baz, n) in g.preds[ActionId(quux, n)]
  {
    ContainedBarAfterFoo(reg, names, nodes, node0, foo, bar, baz, quux, n);
    ContainedBazAfterBar(reg, names, nodes, node0, foo, bar, baz, quux, n);
    ContainedQuuxAfterBaz(reg, names, nodes, node0, foo, bar, baz, quux, n);
  }

  lemma ContainedBarAfterFoo(reg: map<ActionId, Action>, names: seq<string>, nodes: set<string>, node0: string,
                             foo: string, bar: string, baz: string, quux: string, n: string)
    requires ContainedRegistry(reg, nodes, node0, foo, bar, baz, quux) && Distinct4(foo, bar, baz, quux)
    requires names == [foo, bar] && ':' !in foo && ':' !in bar
    requires n in nodes
    ensures BuildGraph(reg, names).Success?
    ensures var g := BuildGraph(reg, names).value;
            ActionId(bar, n) in g.preds && ActionId(foo, node0) in g.preds[ActionId(bar, n)]
  {
    ContainedBuild(reg, names, nodes, node0, foo, bar, baz, quux);
    var foo0, barN := ActionId(foo, node0), ActionId(bar, n);
    assert reg[barN].dependencies == [TargetId(foo, None)];
    assert Matches(reg[barN].dependencies[0], foo0);
    BuildSelectsDependencies(reg, names, barN, foo0);
  }

  lemma ContainedBazAfterBar(reg: map<ActionId, Action>, names: seq<string>, nodes: set<string>, node0: string,
                             foo: string, bar: string, baz: string, quux: string, n: string)
    requires ContainedRegistry(reg, nodes, node0, foo, bar, baz, quux) && Distinct4(foo, bar, baz, quux)
    requires names == [foo, bar] && ':' !in foo && ':' !in bar
    requires n in nodes
    ensures BuildGraph(reg, names).Success?
    ensures var g := BuildGraph(reg, names).value;
            ActionId(baz, n) in g.preds && ActionId(bar, n) in g.preds[ActionId(baz, n)]
  {
    ContainedBuild(reg, names, nodes, node0, foo, bar, baz, quux);
    var barN, bazN := ActionId(bar, n), ActionId(baz, n);
    assert bazN in reg;
    assert reg[barN].impliedTypeNames[0] == baz;
    BuildSelectsImplied(reg, names, barN, bazN);
  }

  lemma ContainedQuuxAfterBaz(reg: map<ActionId, Action>, names: seq<string>, nodes: set<string>, node0: string,
                              foo: string, bar: string, baz: string, quux: string, n: string)
    requires ContainedRegistry(reg, nodes, node0, foo, bar, baz, quux) && Distinct4(foo, bar, baz, quux)
    requires names == [foo, bar] && ':' !in foo && ':' !in bar
    requires n in nodes
    ensures BuildGraph(reg, names).Success?
    ensures var g := BuildGraph(reg, names).value;
            ActionId(quux, n) in g.preds && ActionId(baz, n) in g.preds[ActionId(quux, n)]
  {
    ContainedBuild(reg, names, nodes, node0, foo, bar, baz, quux);
    var bazN, quuxN := ActionId(baz, n), ActionId(quux, n);
    assert quuxN in reg && bazN in reg;
    assert reg[quuxN].dependencies == [TargetId(baz, Some(n))];
    assert Matches(reg[quuxN].dependencies[0], bazN);
    BuildSelectsDependencies(reg, names, quuxN, bazN);
  }

  /** Hence on every node the run orders foo@node0, then bar, then baz,
      then quux: the chain of values the test's actions step through. */
  lemma ContainedOrder(reg: map<ActionId, Action>, names: seq<string>, nodes: set<string>, node0: string,
                       foo: string, bar: string, baz: string, quux: string, order: seq<ActionId>, n: string)
    requires ContainedRegistry(reg, nodes, node0, foo, bar, baz, quux) && Distinct4(foo, bar, baz, quux)
    requires names == [foo, bar] && ':' !in foo && ':' !in bar
    requires n in nodes
    requires BuildGraph(reg, names).Success?
    requires ValidOrder(BuildGraph(reg, names).value, order)
    ensures Before(order, ActionId(foo, node0), ActionId(bar, n))
    ensures Before(order, ActionId(bar, n), ActionId(baz, n))
    ensures Before(order, ActionId(baz, n), ActionId(quux, n))
  {
    var g := BuildGraph(reg, names).value;
    ContainedEdges(reg, names, nodes, node0, foo, bar, baz, quux, n);
    EdgeRespected(g, order, ActionId(foo, node0), ActionId(bar, n));
    EdgeRespected(g, order, ActionId(bar, n), ActionId(baz, n));
    EdgeRespected(g, order, ActionId(baz, n), ActionId(quux, n));
  }

  /** The contained-dependencies run never gets stuck: every action runs. */
  lemma ContainedNeverStuck(reg: map<ActionId, Action>, names: seq<string>, nodes: set<string>, node0: string,
                            foo: string, bar: string, baz: string, quux: string, s: set<ActionId>)
    requires ContainedRegistry(reg, nodes, node0, foo, bar, baz, quux) && Distinct4(foo, bar, baz, quux)
    requires BuildGraph(reg, names).Success?
    requires Stuck(BuildGraph(reg, names).value, s)
    ensures s == {}
  {
    var level := (t: string) => if t == foo then 0 else if t == bar then 1 else if t == baz then 2 else 3;
    forall x, d | x in reg && d in reg[x].dependencies
      ensures level(d.targetType) < level(x.actionType)
    {
      if x.actionType == bar {
        assert d == TargetId(foo, None);
      } else if x.actionType == quux {
        assert d == TargetId(baz, Some(x.scope));
      }
    }
    forall x, t | x in reg && t in reg[x].impliedTypeNames
      ensures level(x.actionType) < level(t)
    {
      if x.actionType == bar {
        assert t == baz || t == quux;
      }
    }
    LayeredBuildNeverStuck(reg, names, level, s);
  }

  // ---------------------------------------------------------------------
  // testAllDependency: baz on node1; on every node foo (implies bar and
  // quux), quux, and bar (waits for every quux and for baz@node1).

  function AllAction(id: ActionId, node1: string, foo: string, bar: string, baz: string, quux: string): Action
  {
    if id.actionType == foo then Action(id, [], [bar, quux], 0)
    else if id.actionType == bar then Action(id, [TargetId(quux, None), TargetId(baz, Some(node1))], [], 0)
    else Plain(id.actionType, id.scope)
  }

  ghost predicate AllRegistry(reg: map<ActionId, Action>, nodes: set<string>, node1: string,
                              foo: string, bar: string, baz: string, quux: string)
  {
    && node1 in nodes
    && (forall id :: id in reg <==>
          || id == ActionId(baz, node1)
          || (id.scope in nodes && (id.actionType == foo || id.actionType == bar || id.actionType == quux)))
    && (forall id :: id in reg ==> reg[id] == AllAction(id, node1, foo, bar, baz, quux))
  }

  /** Requesting foo and "baz:node1" builds; the scoped name selects only
      baz@node1. */
  lemma AllBuildSucceeds(reg: map<ActionId, Action>, names: seq<string>, nodes: set<string>, node1: string,
                         foo: string, bar: string, baz: string, quux: string)
    requires AllRegistry(reg, nodes, node1, foo, bar, baz, quux) && Distinct4(foo, bar, baz, quux)
    requires names == [foo, baz + ":" + node1] && ':' !in foo && ':' !in baz
    ensures BuildGraph(reg, names).Success?
    ensures Matching(reg, ParseTargetName(names[0])) == set id | id in reg && id.actionType == foo
    ensures Matching(reg, ParseTargetName(names[1])) == {ActionId(baz, node1)}
  {
    RequestedNameMatches(reg, foo, node1);
    RequestedNameMatches(reg, baz, node1);
    assert ActionId(foo, node1) in Matching(reg, ParseTargetName(names[0]));
    assert ActionId(baz, node1) in reg;
    assert AllResolve(reg, names);
    BuildFailsOnUnknownTarget(reg, names);
  }

  /** Every registered action is selected: bar and quux on each node come in
      as types foo implies. */
  lemma AllBuild(reg: map<ActionId, Action>, names: seq<string>, nodes: set<string>, node1: string,
                 foo: string, bar: string, baz: string, quux: string)
    requires AllRegistry(reg, nodes, node1, foo, bar, baz, quux) && Distinct4(foo, bar, baz, quux)
    requires names == [foo, baz + ":" + node1] && ':' !in foo && ':' !in baz
    ensures BuildGraph(reg, names).Success?
    ensures BuildGraph(reg, names).value.preds.Keys == reg.Keys
  {
    AllBuildSucceeds(reg, names, nodes, node1, foo, bar, baz, quux);
    var g := BuildGraph(reg, names).value;
    var foo1 := ActionId(foo, node1);
    assert foo1 in reg;
    assert reg[foo1].impliedTypeNames == [bar, quux];
    assert Matches(ParseTargetName(names[0]), foo1);
    BuildSelectsRequested(reg, names, foo1);
    forall id | id in reg
      ensures id in g.preds
    {
      if id.actionType == foo {
        assert Matches(ParseTargetName(names[0]), id);
        BuildSelectsRequested(reg, names, id);
      } else if id.actionType == baz {
        assert Matches(ParseTargetName(names[1]), id);
        BuildSelectsRequested(reg, names, id);
      } else {
        assert Implies(reg[foo1], id);
        BuildSelectsImplied(reg, names, foo1, id);
      }
    }
  }

  /** Each bar waits for every action that is not a bar: baz@node1, every
      foo (which implies bar) and every quux. */
  lemma AllBarWaits(reg: map<ActionId, Action>, names: seq<string>, nodes: set<string>, node1: string,
                    foo: string, bar: string, baz: string, quux: string, n: string, x: ActionId)
    requires AllRegistry(reg, nodes, node1, foo, bar, baz, quux) && Distinct4(foo, bar, baz, quux)
    requires names == [foo, baz + ":" + node1] && ':' !in foo && ':' !in baz
    requires n in nodes && x in reg && x.actionType != bar
    ensures BuildGraph(reg, names).Success?
    ensures ActionId(bar, n) in BuildGraph(reg, names).value.preds
    ensures x in BuildGraph(reg, names).value.preds[ActionId(bar, n)]
  {
    AllBuild(reg, names, nodes, node1, foo, bar, baz, quux);
    var barN := ActionId(bar, n);
    assert barN in reg;
    var deps := reg[barN].dependencies;
    assert deps == [TargetId(quux, None), TargetId(baz, Some(node1))];
    if x.actionType == foo {
      assert reg[x].impliedTypeNames == [bar, quux];
      BuildSelectsImplied(reg, names, x, barN);
    } else if x.actionType == quux {
      assert Matches(deps[0], x);
      BuildSelectsDependencies(reg, names, barN, x);
    } else {
      assert x == ActionId(baz, node1);
      assert Matches(deps[1], x);
      BuildSelectsDependencies(reg, names, barN, x);
    }
  }

  /** Hence every bar runs after every action that is not a bar: the
      2 * |nodes| + 1 runs (seven on three nodes) the test counts. */
  lemma AllOrder(reg: map<ActionId, Action>, names: seq<string>, nodes: set<string>, node1: string,
                 foo: string, bar: string, baz: string, quux: string, order: seq<ActionId>, n: string)
    requires AllRegistry(reg, nodes, node1, foo, bar, baz, quux) && Distinct4(foo, bar, baz, quux)
    requires names == [foo, baz + ":" + node1] && ':' !in foo && ':' !in baz
    requires n in nodes
    requires BuildGraph(reg, names).Success?
    requires ValidOrder(BuildGraph(reg, names).value, order)
    ensures forall x :: x in reg && x.actionType != bar ==> Before(order, x, ActionId(bar, n))
  {
    forall x | x in reg && x.actionType != bar
      ensures Before(order, x, ActionId(bar, n))
    {
      AllBarWaits(reg, names, nodes, node1, foo, bar, baz, quux, n, x);
      EdgeRespected(BuildGraph(reg, names).value, order, x, ActionId(bar, n));
    }
  }

  /** The all-dependency run never gets stuck, so all bars run. */
  lemma AllNeverStuck(reg: map<ActionId, Action>, names: seq<string>, nodes: set<string>, node1: string,
                      foo: string, bar: string, baz: string, quux: string, s: set<ActionId>)
    requires AllRegistry(reg, nodes, node1, foo, bar, baz, quux) && Distinct4(foo, bar, baz, quux)
    requires BuildGraph(reg, names).Success?
    requires Stuck(BuildGraph(reg, names).value, s)
    ensures s == {}
  {
    var level := (t: string) => if t == bar then 2 else if t == quux then 1 else 0;
    forall x, d | x in reg && d in reg[x].dependencies
      ensures level(d.targetType) < level(x.actionType)
    {
      if x.actionType == bar {
        assert d == TargetId(quux, None) || d == TargetId(baz, Some(node1));
      }
    }
    forall x, t | x in reg && t in reg[x].impliedTypeNames
      ensures level(x.actionType) < level(t)
    {
      if x.actionType == foo {
        assert t == bar || t == quux;
      }
    }
    LayeredBuildNeverStuck(reg, names, level, s);
  }

  // ---------------------------------------------------------------------
  // testMaxConcurrentActions: foo on node0 and node1 (each implies bar,
  // quux and baz), bar@node1 (waits for a type, "node1", that no action
  // has), quux@node0, and baz@node1 (waits for bar@node1).

  function MaxAction(id: ActionId, node1: string, foo: string, bar: string, quux: string, baz: string, other: string): Action
  {
    if id.actionType == foo then Action(id, [], [bar, quux, baz], 0)
    else if id.actionType == bar then Action(id, [TargetId(other, None)], [], 0)
    else if id.actionType == baz then Action(id, [TargetId(bar, Some(node1))], [], 0)
    else Plain(id.actionType, id.scope)
  }

  ghost predicate MaxRegistry(reg: map<ActionId, Action>, node0: string, node1: string,
                              foo: string, bar: string, quux: string, baz: string, other: string)
  {
    && node0 != node1
    && (forall id :: id in reg <==>
          || id == ActionId(foo, node0) || id == ActionId(foo, node1)
          || id == ActionId(bar, node1) || id == ActionId(quux, node0) || id == ActionId(baz, node1))
    && (forall id :: id in reg ==> reg[id] == MaxAction(id, node1, foo, bar, quux, baz, other))
  }

  /** No action has the type `other`, so bar@node1's only dependency names
      nothing. */
  lemma MaxDependencyUnmatched(reg: map<ActionId, Action>, node0: string, node1: string,
                               foo: string, bar: string, quux: string, baz: string, other: string)
    requires MaxRegistry(reg, node0, node1, foo, bar, quux, baz, other) && Distinct4(foo, bar, quux, baz)
    requires other != foo && other != bar && other != quux && other != baz
    ensures ActionId(bar, node1) in reg && reg[ActionId(bar, node1)].dependencies == [TargetId(other, None)]
    ensures Matching(reg, TargetId(other, None)) == {}
  {
    assert ActionId(bar, node1) in reg;
  }

  /** Requesting foo builds, and selects all five actions: those of types
      foo implies come in on every node where they are registered. */
  lemma MaxBuild(reg: map<ActionId, Action>, names: seq<string>, node0: string, node1: string,
                 foo: string, bar: string, quux: string, baz: string, other: string)
    requires MaxRegistry(reg, node0, node1, foo, bar, quux, baz, other) && Distinct4(foo, bar, quux, baz)
    requires names == [foo] && ':' !in foo
    ensures BuildGraph(reg, names).Success?
    ensures BuildGraph(reg, names).value.preds.Keys == reg.Keys
  {
    var foo0 := ActionId(foo, node0);
    RequestedNameMatches(reg, foo, node0);
    assert foo0 in reg;
    assert foo0 in Matching(reg, ParseTargetName(names[0]));
    assert AllResolve(reg, names);
    BuildFailsOnUnknownTarget(reg, names);
    var g := BuildGraph(reg, names).value;
    assert reg[foo0].impliedTypeNames == [bar, quux, baz];
    BuildSelectsRequested(reg, names, foo0);
    forall id | id in reg
      ensures id in g.preds
    {
      if id.actionType == foo {
        assert Matches(ParseTargetName(names[0]), id);
        BuildSelectsRequested(reg, names, id);
      } else {
        assert Implies(reg[foo0], id);
        BuildSelectsImplied(reg, names, foo0, id);
      }
    }
  }

  /** bar@node1 waits for each foo, since foo implies its type ... */
  lemma MaxFooImpliesBar(reg: map<ActionId, Action>, names: seq<string>, node0: string, node1: string,
                         foo: string, bar: string, quux: string, baz: string, other: string, n: string)
    requires MaxRegistry(reg, node0, node1, foo, bar, quux, baz, other) && Distinct4(foo, bar, quux, baz)
    requires names == [foo] && ':' !in foo
    requires n == node0 || n == node1
    ensures BuildGraph(reg, names).Success?
    ensures ActionId(bar, node1) in BuildGraph(reg, names).value.preds
    ensures ActionId(foo, n) in BuildGraph(reg, names).value.preds[ActionId(bar, node1)]
  {
    MaxBuild(reg, names, node0, node1, foo, bar, quux, baz, other);
    var bar1, fooN := ActionId(bar, node1), ActionId(foo, n);
    assert bar1 in reg && fooN in reg;
    assert reg[fooN].impliedTypeNames == [bar, quux, baz];
    BuildSelectsImplied(reg, names, fooN, bar1);
  }

  /** ... and for nothing else: its unmatched dependency adds no edge, so
      it does not block it. */
  lemma MaxBarWaitsForFoos(reg: map<ActionId, Action>, names: seq<string>, node0: string, node1: string,
                           foo: string, bar: string, quux: string, baz: string, other: string)
    requires MaxRegistry(reg, node0, node1, foo, bar, quux, baz, other) && Distinct4(foo, bar, quux, baz)
    requires other != foo && other != bar && other != quux && other != baz
    requires names == [foo] && ':' !in foo
    ensures BuildGraph(reg, names).Success?
    ensures ActionId(bar, node1) in BuildGraph(reg, names).value.preds
    ensures BuildGraph(reg, names).value.preds[ActionId(bar, node1)] == {ActionId(foo, node0), ActionId(foo, node1)}
  {
    MaxFooImpliesBar(reg, names, node0, node1, foo, bar, quux, baz, other, node0);
    MaxFooImpliesBar(reg, names, node0, node1, foo, bar, quux, baz, other, node1);
    var g := BuildGraph(reg, names).value;
    var bar1 := ActionId(bar, node1);
    forall p | p in g.preds[bar1]
      ensures p == ActionId(foo, node0) || p == ActionId(foo, node1)
    {
      MaxBarPredecessor(reg, names, node0, node1, foo, bar, quux, baz, other, p);
    }
  }

  lemma MaxBarPredecessor(reg: map<ActionId, Action>, names: seq<string>, node0: string, node1: string,
                          foo: string, bar: string, quux: string, baz: string, other: string, p: ActionId)
    requires MaxRegistry(reg, node0, node1, foo, bar, quux, baz, other) && Distinct4(foo, bar, quux, baz)
    requires other != foo && other != bar && other != quux && other != baz
    requires BuildGraph(reg, names).Success?
    requires ActionId(bar, node1) in BuildGraph(reg, names).value.preds
    requires p in BuildGraph(reg, names).value.preds[ActionId(bar, node1)]
    ensures p == ActionId(foo, node0) || p == ActionId(foo, node1)
  {
    var bar1 := ActionId(bar, node1);
    MaxDependencyUnmatched(reg, node0, node1, foo, bar, quux, baz, other);
    BuildEdgesExact(reg, names, bar1, p);
    assert p in reg;
    assert !DependsOn(reg[bar1], p) by {
      assert p !in Matching(reg, TargetId(other, None));
    }
    assert reg[p].impliedTypeNames == if p.actionType == foo then [bar, quux, baz] else [];
  }

  /** In every complete run both foos precede bar@node1, which precedes
      baz@node1. */
  lemma MaxOrder(reg: map<ActionId, Action>, names: seq<string>, node0: string, node1: string,
                 foo: string, bar: string, quux: string, baz: string, other: string, order: seq<ActionId>)
    requires MaxRegistry(reg, node0, node1, foo, bar, quux, baz, other) && Distinct4(foo, bar, quux, baz)
    requires other != foo && other != bar && other != quux && other != baz
    requires names == [foo] && ':' !in foo
    requires BuildGraph(reg, names).Success?
    requires ValidOrder(BuildGraph(reg, names).value, order)
    ensures Before(order, ActionId(foo, node0), ActionId(bar, node1))
    ensures Before(order, ActionId(foo, node1), ActionId(bar, node1))
    ensures Before(order, ActionId(bar, node1), ActionId(baz, node1))
  {
    var g := BuildGraph(reg, names).value;
    var bar1, baz1 := ActionId(bar, node1), ActionId(baz, node1);
    MaxFooImpliesBar(reg, names, node0, node1, foo, bar, quux, baz, other, node0);
    MaxFooImpliesBar(reg, names, node0, node1, foo, bar, quux, baz, other, node1);
    EdgeRespected(g, order, ActionId(foo, node0), bar1);
    EdgeRespected(g, order, ActionId(foo, node1), bar1);
    assert baz1 in reg && bar1 in reg;
    assert Matches(reg[baz1].dependencies[0], bar1);
    BuildSelectsDependencies(reg, names, baz1, bar1);
    EdgeRespected(g, order, bar1, baz1);
  }

  /** The run never gets stuck, so all five actions run. */
  lemma MaxNeverStuck(reg: map<ActionId, Action>, names: seq<string>, node0: string, node1: string,
                      foo: string, bar: string, quux: string, baz: string, other: string, s: set<ActionId>)
    requires MaxRegistry(reg, node0, node1, foo, bar, quux, baz, other) && Distinct4(foo, bar, quux, baz)
    requires other != bar && other != quux && other != baz
    requires BuildGraph(reg, names).Success?
    requires Stuck(BuildGraph(reg, names).value, s)
    ensures s == {}
  {
    var level := (t: string) => if t == baz then 2 else if t == bar || t == quux then 1 else 0;
    forall x, d | x in reg && d in reg[x].dependencies
      ensures level(d.targetType) < level(x.actionType)
    {
      if x.actionType == bar {
        assert d == TargetId(other, None);
      } else if x.actionType == baz {
        assert d == TargetId(bar, Some(node1));
      }
    }
    forall x, t | x in reg && t in reg[x].impliedTypeNames
      ensures level(x.actionType) < level(t)
    {
      if x.actionType == foo {
        assert t == bar || t == quux || t == baz;
      }
    }
    LayeredBuildNeverStuck(reg, names, level, s);
  }
}
