/** Which actions a run contains and which must finish before which: the
    resolution half of the scheduler's builder, as functions over a registry. */
module Selection {
  import opened Wrappers
  import opened Actions

  /** Why a build fails. */
  datatype BuildError = UnknownTarget(name: string)

  /** The exception text of a failed build. */
  function ErrorMessage(e: BuildError): (msg: string)
    ensures |msg| == 15 + |e.name|
    ensures msg[..14] == "Unknown target"
    ensures msg[15..] == e.name
  {
    "Unknown target " + e.name
  }

  /** `a` declares a dependency that names `p`. */
  predicate DependsOn(a: Action, p: ActionId)
  {
    exists d :: d in a.dependencies && Matches(d, p)
  }

  /** `p` pulls every action of `a`'s type into the run. */
  predicate Implies(p: Action, a: ActionId)
  {
    a.actionType in p.impliedTypeNames
  }

  /** The registered actions a reference names. */
  function Matching(reg: map<ActionId, Action>, t: TargetId): set<ActionId>
  {
    set id | id in reg.Keys && Matches(t, id)
  }

  /** A bare type name names every registered action of that type; a
      `type:scope` name names that one action, or nothing when it is not
      registered. */
  lemma RequestedNameMatches(reg: map<ActionId, Action>, t: string, scope: string)
    requires ':' !in t
    ensures Matching(reg, ParseTargetName(t)) == set id | id in reg && id.actionType == t
    ensures Matching(reg, ParseTargetName(t + ":" + scope)) ==
              if ActionId(t, scope) in reg then {ActionId(t, scope)} else {}
  {
    TargetNameRoundTrip(TargetId(t, Some(scope)));
  }

  /** Resolves the requested names in the order they were added: the first
      name that names no registered action fails the build. */
  function ResolveNames(reg: map<ActionId, Action>, names: seq<string>): (r: Result<set<ActionId>, BuildError>)
    ensures r.Success? ==> r.value <= reg.Keys
  {
    if |names| == 0 then Success({})
    else
      match ResolveNames(reg, names[..|names| - 1])
      case Failure(e) => Failure(e)
      case Success(seeds) =>
        var matched := Matching(reg, ParseTargetName(names[|names| - 1]));
        if matched == {} then Failure(UnknownTarget(names[|names| - 1]))
        else Success(seeds + matched)
  }

  /** Whether every requested name names at least one registered action. */
  predicate AllResolve(reg: map<ActionId, Action>, names: seq<string>)
  {
    forall i :: 0 <= i < |names| ==> Matching(reg, ParseTargetName(names[i])) != {}
  }

  /** Some requested name names `id`. */
  predicate Requested(names: seq<string>, id: ActionId)
  {
    exists i :: 0 <= i < |names| && Matches(ParseTargetName(names[i]), id)
  }

  /** The build resolves its names exactly when each one names something. */
  lemma {:induction false} ResolveNamesSucceeds(reg: map<ActionId, Action>, names: seq<string>)
    ensures ResolveNames(reg, names).Success? <==> AllResolve(reg, names)
  {
    if |names| > 0 {
      var init := names[..|names| - 1];
      ResolveNamesSucceeds(reg, init);
      assert forall i :: 0 <= i < |init| ==> init[i] == names[i];
    }
  }

  /** A successful resolution selects exactly the actions some name names. */
  lemma {:induction false} ResolveNamesSeeds(reg: map<ActionId, Action>, names: seq<string>, id: ActionId)
    requires ResolveNames(reg, names).Success?
    ensures id in ResolveNames(reg, names).value <==> id in reg && Requested(names, id)
  {
    if |names| > 0 {
      var init := names[..|names| - 1];
      var last := names[|names| - 1];
      ResolveNamesSeeds(reg, init, id);
      if Requested(names, id) {
        var i :| 0 <= i < |names| && Matches(ParseTargetName(names[i]), id);
        if i < |names| - 1 {
          assert init[i] == names[i];
        }
      }
      if Requested(init, id) {
        var i :| 0 <= i < |init| && Matches(ParseTargetName(init[i]), id);
        assert init[i] == names[i];
      }
    }
  }

  /** A failed resolution names the first name that names nothing. */
  lemma {:induction false} ResolveNamesFailure(reg: map<ActionId, Action>, names: seq<string>)
    requires ResolveNames(reg, names).Failure?
    ensures exists i :: 0 <= i < |names|
              && names[i] == ResolveNames(reg, names).error.name
              && Matching(reg, ParseTargetName(names[i])) == {}
              && AllResolve(reg, names[..i])
  {
    var init := names[..|names| - 1];
    var last := |names| - 1;
    if ResolveNames(reg, init).Failure? {
      ResolveNamesFailure(reg, init);
      var i :| 0 <= i < |init| && init[i] == ResolveNames(reg, init).error.name
               && Matching(reg, ParseTargetName(init[i])) == {} && AllResolve(reg, init[..i]);
      assert init[..i] == names[..i];
    } else {
      ResolveNamesSucceeds(reg, init);
      assert names[..last] == init;
    }
  }

  /** A failure on a prefix of the names is the failure of the whole list. */
  lemma {:induction false} ResolvePrefixFailure(reg: map<ActionId, Action>, names: seq<string>, k: nat)
    requires k <= |names|
    requires ResolveNames(reg, names[..k]).Failure?
    ensures ResolveNames(reg, names) == ResolveNames(reg, names[..k])
    decreases |names| - k
  {
    if k < |names| {
      ResolvePrefixFailure(reg, names[..|names| - 1], k);
      assert names[..|names| - 1][..k] == names[..k];
      assert names[..|names|] == names;
    } else {
      assert names[..k] == names;
    }
  }

  /** One expansion step: everything the actions of `s` wait on or imply. */
  function Successors(reg: map<ActionId, Action>, s: set<ActionId>): (r: set<ActionId>)
    ensures r <= reg.Keys
  {
    set b | b in reg.Keys && exists a :: a in s && a in reg && (DependsOn(reg[a], b) || Implies(reg[a], b))
  }

  lemma StrictSubsetSmaller<T>(a: set<T>, b: set<T>)
    requires a < b
    ensures |a| < |b|
  {
    assert b == a + (b - a);
    assert |b - a| > 0;
  }

  lemma SuccessorsMonotonic(reg: map<ActionId, Action>, s: set<ActionId>, t: set<ActionId>)
    requires s <= t
    ensures Successors(reg, s) <= Successors(reg, t)
  {
  }

  /** Expands `s` until it is a fixed point of `Successors`. */
  function Close(reg: map<ActionId, Action>, s: set<ActionId>): (r: set<ActionId>)
    requires s <= reg.Keys
    ensures s <= r <= reg.Keys
    ensures Successors(reg, r) <= r
    decreases |reg.Keys - s|
  {
    var next := s + Successors(reg, s);
    if next == s then s
    else
      StrictSubsetSmaller(reg.Keys - next, reg.Keys - s);
      Close(reg, next)
  }

  /** The closure is the least set that holds `s` and is closed under
      dependencies and implied types. */
  lemma {:induction false} CloseLeast(reg: map<ActionId, Action>, s: set<ActionId>, c: set<ActionId>)
    requires s <= reg.Keys && s <= c
    requires Successors(reg, c) <= c
    ensures Close(reg, s) <= c
    decreases |reg.Keys - s|
  {
    var next := s + Successors(reg, s);
    if next != s {
      SuccessorsMonotonic(reg, s, c);
      StrictSubsetSmaller(reg.Keys - next, reg.Keys - s);
      CloseLeast(reg, next, c);
    }
  }

  /** The resolved run: the registry, and for each selected action the
      selected actions that must finish before it.  The key set of `preds`
      is the selected set. */
  datatype Graph = Graph(actions: map<ActionId, Action>, preds: map<ActionId, set<ActionId>>)

  /** Edges stay inside the selected set and no action waits for itself. */
  predicate WellFormed(g: Graph)
  {
    forall a, p :: a in g.preds && p in g.preds[a] ==> p in g.preds && p != a
  }

  /** Within `sel`, the actions `a` waits for: those its dependencies name
      and those that imply its type, never `a` itself. */
  function Predecessors(reg: map<ActionId, Action>, sel: set<ActionId>, a: ActionId): set<ActionId>
  {
    set p | p in sel && p != a && p in reg && a in reg && (DependsOn(reg[a], p) || Implies(reg[p], a))
  }

  function ResolveEdges(reg: map<ActionId, Action>, sel: set<ActionId>): (g: Graph)
    ensures WellFormed(g)
    ensures g.preds.Keys == sel && g.actions == reg
  {
    Graph(reg, map a | a in sel :: Predecessors(reg, sel, a))
  }

  /** What `build()` produces from the registered actions and the requested
      names. */
  function BuildGraph(reg: map<ActionId, Action>, names: seq<string>): (r: Result<Graph, BuildError>)
    ensures r.Success? ==> WellFormed(r.value) && r.value.actions == reg && r.value.preds.Keys <= reg.Keys
  {
    match ResolveNames(reg, names)
    case Failure(e) => Failure(e)
    case Success(seeds) => Success(ResolveEdges(reg, Close(reg, seeds)))
  }
}

/** What a successful build guarantees about the selected set and its edges. */
module BuildProperties {
  import opened Wrappers
  import opened Actions
  import opened Selection

  /** The build fails exactly when some requested name names no registered
      action, and the failure names the first such name in an "Unknown
      target" message. */
  lemma BuildFailsOnUnknownTarget(reg: map<ActionId, Action>, names: seq<string>)
    ensures BuildGraph(reg, names).Failure? <==> !AllResolve(reg, names)
    ensures BuildGraph(reg, names).Failure? ==>
              var e := BuildGraph(reg, names).error;
              && ErrorMessage(e)[..14] == "Unknown target"
              && exists i :: 0 <= i < |names| && names[i] == e.name
                   && Matching(reg, ParseTargetName(names[i])) == {}
                   && AllResolve(reg, names[..i])
  {
    ResolveNamesSucceeds(reg, names);
    if BuildGraph(reg, names).Failure? {
      ResolveNamesFailure(reg, names);
    }
  }

  /** Every registered action a requested name names is selected. */
  lemma BuildSelectsRequested(reg: map<ActionId, Action>, names: seq<string>, id: ActionId)
    requires BuildGraph(reg, names).Success?
    requires id in reg && Requested(names, id)
    ensures id in BuildGraph(reg, names).value.preds
  {
    ResolveNamesSeeds(reg, names, id);
  }

  /** A selected action's dependencies that name registered actions are
      selected too, and each one other than the action itself is its
      predecessor. */
  lemma BuildSelectsDependencies(reg: map<ActionId, Action>, names: seq<string>, a: ActionId, b: ActionId)
    requires BuildGraph(reg, names).Success?
    requires a in BuildGraph(reg, names).value.preds
    requires b in reg && DependsOn(reg[a], b)
    ensures b in BuildGraph(reg, names).value.preds
    ensures b != a ==> b in BuildGraph(reg, names).value.preds[a]
  {
    var seeds := ResolveNames(reg, names).value;
    var sel := Close(reg, seeds);
    assert b in Successors(reg, sel);
  }

  /** Every registered action of a type that a selected action implies is
      selected too, and (unless it is that same action) runs after it. */
  lemma BuildSelectsImplied(reg: map<ActionId, Action>, names: seq<string>, p: ActionId, b: ActionId)
    requires BuildGraph(reg, names).Success?
    requires p in BuildGraph(reg, names).value.preds
    requires b in reg && Implies(reg[p], b)
    ensures b in BuildGraph(reg, names).value.preds
    ensures b != p ==> p in BuildGraph(reg, names).value.preds[b]
  {
    var seeds := ResolveNames(reg, names).value;
    var sel := Close(reg, seeds);
    assert b in Successors(reg, sel);
  }

  /** Nothing else is selected: the selected set lies inside every set that
      holds the requested actions and is closed under dependencies and
      implied types. */
  lemma BuildSelectsNothingElse(reg: map<ActionId, Action>, names: seq<string>, c: set<ActionId>)
    requires BuildGraph(reg, names).Success?
    requires forall id :: id in reg && Requested(names, id) ==> id in c
    requires Successors(reg, c) <= c
    ensures BuildGraph(reg, names).value.preds.Keys <= c
  {
    var seeds := ResolveNames(reg, names).value;
    forall id | id in seeds ensures id in c {
      ResolveNamesSeeds(reg, names, id);
    }
    CloseLeast(reg, seeds, c);
  }

  /** Actions that declare no dependencies and imply no types run without
      waiting for one another. */
  lemma BuildIndependent(reg: map<ActionId, Action>, names: seq<string>, a: ActionId)
    requires BuildGraph(reg, names).Success?
    requires a in BuildGraph(reg, names).value.preds
    requires forall x :: x in reg ==> reg[x].dependencies == [] && reg[x].impliedTypeNames == []
    ensures BuildGraph(reg, names).value.preds[a] == {}
  {
    var sel := Close(reg, ResolveNames(reg, names).value);
    forall p | p in sel
      ensures p !in Predecessors(reg, sel, a)
    {
      if p in reg && a in reg {
        assert reg[a].dependencies == [];
        assert reg[p].impliedTypeNames == [];
      }
    }
  }

  /** The edges of the run are exactly the dependency matches and the
      implications among selected actions, minus self-edges; a dependency
      that names nothing selected adds no edge. */
  lemma BuildEdgesExact(reg: map<ActionId, Action>, names: seq<string>, a: ActionId, p: ActionId)
    requires BuildGraph(reg, names).Success?
    requires a in BuildGraph(reg, names).value.preds
    ensures p in BuildGraph(reg, names).value.preds[a] <==>
              && p in BuildGraph(reg, names).value.preds
              && p != a
              && (DependsOn(reg[a], p) || Implies(reg[p], a))
  {
  }
}
