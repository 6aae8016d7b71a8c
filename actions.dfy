/** The scheduler's vocabulary: action identities, dependency/target
    references and action declarations (ActionId, TargetId, Action). */
module Actions {
  import opened Wrappers
  import opened Strings

  /** The identity of one schedulable unit: a type and a scope, the scope
      being a node name or "" for a cluster-wide action. */
  datatype ActionId = ActionId(actionType: string, scope: string)

  /** A reference to actions: a type and, when present, one scope.  A
      reference without a scope stands for every instance of the type. */
  datatype TargetId = TargetId(targetType: string, scope: Option<string>)

  /** A declared action: its identity, the references it must wait for, the
      type names it pulls into the same run, and its start delay in
      milliseconds (kept as a number only; no timing is modelled). */
  datatype Action = Action(
    id: ActionId,
    dependencies: seq<TargetId>,
    impliedTypeNames: seq<string>,
    initialDelay: int)

  /** Whether reference `t` names action `id`. */
  predicate Matches(t: TargetId, id: ActionId)
  {
    t.targetType == id.actionType && (t.scope.None? || t.scope.value == id.scope)
  }

  /** A reference with a scope names exactly one identity; one without names
      every identity of its type. */
  lemma MatchesExactlyOrByType(t: TargetId, id: ActionId)
    ensures t.scope.Some? ==> (Matches(t, id) <==> id == ActionId(t.targetType, t.scope.value))
    ensures t.scope.None? ==> (Matches(t, id) <==> id.actionType == t.targetType)
  {
  }

  /** A requested target name: `type`, or `type:scope` split at the first colon. */
  function ParseTargetName(name: string): (t: TargetId)
    ensures ':' !in name ==> t == TargetId(name, None)
    ensures ':' in name ==> t.scope.Some? && ':' !in t.targetType
                            && name == t.targetType + ":" + t.scope.value
  {
    var k := FirstIndexOf(name, ':');
    if k == |name| then TargetId(name, None)
    else
      assert name == name[..k] + ":" + name[k + 1..];
      TargetId(name[..k], Some(name[k + 1..]))
  }

  /** The name that requests `t`. */
  function TargetName(t: TargetId): string
  {
    match t.scope
    case None => t.targetType
    case Some(s) => t.targetType + ":" + s
  }

  /** Every reference whose type has no colon is requested by its own name. */
  lemma TargetNameRoundTrip(t: TargetId)
    requires ':' !in t.targetType
    ensures ParseTargetName(TargetName(t)) == t
  {
    match t.scope
    case None =>
    case Some(s) =>
      var name := TargetName(t);
      var k := FirstIndexOf(name, ':');
      assert name[|t.targetType|] == ':';
      assert k == |t.targetType|;
      assert name[..k] == t.targetType;
      assert name[k + 1..] == s;
  }

  /** A registry keys every action by its own identity. */
  predicate KeyedById(reg: map<ActionId, Action>)
  {
    forall k :: k in reg ==> reg[k].id == k
  }
}
