/** The cluster specification: its configuration, its nodes (whose names in
    the cluster file may be range patterns standing for several nodes) and
    its named roles, and the per-node role maps built from them.  JSON trees
    are the type parameter `J`; the JSON copy of a node specification is the
    identity here, and the merge of a role with its node patch is the
    parameter `merge`. */
module ClusterSpecs {
  import opened Wrappers
  import opened Strings

  /** A named role of the cluster file: the role class its JSON selects and
      the rest of its JSON. */
  datatype Role<J> = Role(roleClass: string, body: J)

  /** A node specification: the names of its roles, in order, and the JSON
      patches some of them get on this node. */
  datatype NodeSpec<J> = NodeSpec(roleNames: seq<string>, rolePatches: map<string, J>)

  /** The patch of `roleName` on `node`, `None` when it has none. */
  function PatchFor<J>(node: NodeSpec<J>, roleName: string): Option<J>
  {
    if roleName in node.rolePatches then Some(node.rolePatches[roleName]) else None
  }

  /** The expansion of the node patterns: the loop over the pattern keys (in
      the iteration order `order`, which lists every key) and over the names
      each key expands to, putting each name with its pattern's
      specification.  Every name some pattern denotes gets an entry, no other
      name does, and each entry is the specification of a pattern denoting it. */
  method ExpandNodes<J>(nodes: map<string, NodeSpec<J>>, order: seq<string>, expand: string -> seq<string>)
    returns (expanded: map<string, NodeSpec<J>>)
    requires forall p :: p in nodes ==> p in order
    requires forall i :: 0 <= i < |order| ==> order[i] in nodes
    ensures forall n :: n in expanded <==> exists p :: p in nodes && n in expand(p)
    ensures forall n :: n in expanded ==> exists p :: p in nodes && n in expand(p) && expanded[n] == nodes[p]
  {
    expanded := map[];
    var i := 0;
    while i < |order|
      invariant 0 <= i <= |order|
      invariant forall n :: n in expanded <==> exists a :: 0 <= a < i && n in expand(order[a])
      invariant forall n :: n in expanded ==> exists p :: p in nodes && n in expand(p) && expanded[n] == nodes[p]
    {
      var names := expand(order[i]);
      var j := 0;
      while j < |names|
        invariant 0 <= j <= |names|
        invariant forall n :: n in expanded <==> (exists a :: 0 <= a < i && n in expand(order[a])) || n in names[..j]
        invariant forall n :: n in expanded ==> exists p :: p in nodes && n in expand(p) && expanded[n] == nodes[p]
      {
        expanded := expanded[names[j] := nodes[order[i]]];
        assert names[..j + 1] == names[..j] + [names[j]];
        j := j + 1;
      }
      assert names[..j] == names;
      i := i + 1;
    }
    forall n | exists p :: p in nodes && n in expand(p)
      ensures n in expanded
    {
      var p :| p in nodes && n in expand(p);
      var a :| 0 <= a < |order| && order[a] == p;
    }
  }

  /** Every role name of `node` names a role of the cluster. */
  predicate RolesDefined<J>(node: NodeSpec<J>, roles: map<string, Role<J>>)
  {
    forall i :: 0 <= i < |node.roleNames| ==> node.roleNames[i] in roles
  }

  /** The position of the first role name that names no role, or the
      length of the list when every name does. */
  function MissingRoleIndex<J>(names: seq<string>, roles: map<string, Role<J>>): (k: nat)
    ensures k <= |names|
    ensures k < |names| ==> names[k] !in roles
    ensures forall i :: 0 <= i < k ==> names[i] in roles
  {
    if |names| == 0 then 0
    else if names[0] !in roles then 0
    else 1 + MissingRoleIndex(names[1..], roles)
  }

  /** The error nodesToRoles raises for a role name that names no role; the
      list it quotes is the node's own role names. */
  function MissingRoleMessage(nodeName: string, roleName: string, roleNames: seq<string>): string
  {
    "For node " + nodeName + ", no role named " + roleName + " found.  Role names are "
      + Join(roleNames, ", ")
  }

  /** The role map of `node` after its first `k` role names: each puts the
      merge of the named role with the node's patch under the named role's
      class, replacing what an earlier role of the same class put there. */
  function RoleMap<J>(node: NodeSpec<J>, roles: map<string, Role<J>>, merge: (Role<J>, Option<J>) -> Role<J>, k: nat)
    : map<string, Role<J>>
    requires k <= |node.roleNames|
    requires forall i :: 0 <= i < k ==> node.roleNames[i] in roles
  {
    if k == 0 then map[]
    else
      var name := node.roleNames[k - 1];
      RoleMap(node, roles, merge, k - 1)[roles[name].roleClass := merge(roles[name], PatchFor(node, name))]
  }

  /** A role map's classes are exactly the classes of the node's roles. */
  lemma {:induction false} RoleMapClasses<J>(node: NodeSpec<J>, roles: map<string, Role<J>>,
                                             merge: (Role<J>, Option<J>) -> Role<J>, k: nat, c: string)
    requires k <= |node.roleNames|
    requires forall i :: 0 <= i < k ==> node.roleNames[i] in roles
    ensures c in RoleMap(node, roles, merge, k) <==>
              exists i :: 0 <= i < k && roles[node.roleNames[i]].roleClass == c
  {
    if k > 0 {
      RoleMapClasses(node, roles, merge, k - 1, c);
    }
  }

  /** A node never holds more roles than it names: one role per class, and
      at most one class per name. */
  lemma {:induction false} RoleMapSize<J>(node: NodeSpec<J>, roles: map<string, Role<J>>,
                                          merge: (Role<J>, Option<J>) -> Role<J>, k: nat)
    requires k <= |node.roleNames|
    requires forall i :: 0 <= i < k ==> node.roleNames[i] in roles
    ensures |RoleMap(node, roles, merge, k)| <= k
  {
    if k > 0 {
      RoleMapSize(node, roles, merge, k - 1);
      var m := RoleMap(node, roles, merge, k - 1);
      var c := roles[node.roleNames[k - 1]].roleClass;
      if c in m {
        assert m[c := merge(roles[node.roleNames[k - 1]], PatchFor(node, node.roleNames[k - 1]))].Keys == m.Keys;
      } else {
        assert m[c := merge(roles[node.roleNames[k - 1]], PatchFor(node, node.roleNames[k - 1]))].Keys == m.Keys + {c};
      }
    }
  }

  /** The role a node holds for a class is the last of its roles of that
      class, merged with the node's patch for that role's name. */
  lemma {:induction false} RoleMapLastWins<J>(node: NodeSpec<J>, roles: map<string, Role<J>>,
                                              merge: (Role<J>, Option<J>) -> Role<J>, k: nat, c: string)
    returns (i: nat)
    requires k <= |node.roleNames|
    requires forall j :: 0 <= j < k ==> node.roleNames[j] in roles
    requires c in RoleMap(node, roles, merge, k)
    ensures i < k && roles[node.roleNames[i]].roleClass == c
    ensures RoleMap(node, roles, merge, k)[c] == merge(roles[node.roleNames[i]], PatchFor(node, node.roleNames[i]))
    ensures forall j :: i < j < k ==> roles[node.roleNames[j]].roleClass != c
  {
    if roles[node.roleNames[k - 1]].roleClass == c {
      i := k - 1;
    } else {
      i := RoleMapLastWins(node, roles, merge, k - 1, c);
    }
  }

  /** The role map of one node: the inner loop of nodesToRoles, which stops
      with the error at the first role name that names no role. */
  method NodeRoles<J>(nodeName: string, node: NodeSpec<J>, roles: map<string, Role<J>>,
                      merge: (Role<J>, Option<J>) -> Role<J>)
    returns (r: Result<map<string, Role<J>>, string>)
    ensures r.Success? <==> RolesDefined(node, roles)
    ensures r.Success? ==> r.value == RoleMap(node, roles, merge, |node.roleNames|)
    ensures r.Failure? ==>
              var k := MissingRoleIndex(node.roleNames, roles);
              k < |node.roleNames| && r.error == MissingRoleMessage(nodeName, node.roleNames[k], node.roleNames)
  {
    var roleMap := map[];
    var j := 0;
    while j < |node.roleNames|
      invariant 0 <= j <= |node.roleNames|
      invariant forall i :: 0 <= i < j ==> node.roleNames[i] in roles
      invariant roleMap == RoleMap(node, roles, merge, j)
    {
      var roleName := node.roleNames[j];
      if roleName !in roles {
        assert MissingRoleIndex(node.roleNames, roles) == j;
        return Failure(MissingRoleMessage(nodeName, roleName, node.roleNames));
      }
      var role := roles[roleName];
      roleMap := roleMap[role.roleClass := merge(role, PatchFor(node, roleName))];
      j := j + 1;
    }
    return Success(roleMap);
  }

  /** The cluster specification as its JSON creator leaves it. */
  class CastleClusterSpec<C, J> {
    const conf: C
    const nodes: map<string, NodeSpec<J>>
    const roles: map<string, Role<J>>

    /** The JSON creator: a missing conf becomes `defaultConf` (the
        configuration with every setting unset), missing nodes become no
        nodes, node patterns are expanded (see `ExpandNodes`; `patternOrder`
        is the iteration order of the given map), and missing roles become
        no roles. */
    constructor(conf: Option<C>, defaultConf: C,
                nodes: Option<map<string, NodeSpec<J>>>, patternOrder: seq<string>, expand: string -> seq<string>,
                roles: Option<map<string, Role<J>>>)
      requires nodes.Some? ==> forall p :: p in nodes.value ==> p in patternOrder
      requires nodes.Some? ==> forall i :: 0 <= i < |patternOrder| ==> patternOrder[i] in nodes.value
      ensures conf.None? ==> this.conf == defaultConf
      ensures conf.Some? ==> this.conf == conf.value
      ensures nodes.None? ==> this.nodes == map[]
      ensures nodes.Some? ==> forall n :: n in this.nodes <==> exists p :: p in nodes.value && n in expand(p)
      ensures nodes.Some? ==> forall n :: n in this.nodes ==>
                exists p :: p in nodes.value && n in expand(p) && this.nodes[n] == nodes.value[p]
      ensures roles.None? ==> this.roles == map[]
      ensures roles.Some? ==> this.roles == roles.value
    {
      this.conf := if conf.None? then defaultConf else conf.value;
      var expanded := map[];
      if nodes.Some? {
        expanded := ExpandNodes(nodes.value, patternOrder, expand);
      }
      this.nodes := expanded;
      this.roles := if roles.None? then map[] else roles.value;
    }

    /** nodesToRoles: one role map per node, the nodes taken in the iteration
        order `order` (which lists every node).  It fails with the error of
        the first node, in that order, that names a missing role; otherwise
        every node gets its `RoleMap`. */
    method NodesToRoles(order: seq<string>, merge: (Role<J>, Option<J>) -> Role<J>)
      returns (r: Result<map<string, map<string, Role<J>>>, string>)
      requires forall n :: n in nodes ==> n in order
      requires forall i :: 0 <= i < |order| ==> order[i] in nodes
      ensures r.Success? <==> forall n :: n in nodes ==> RolesDefined(nodes[n], roles)
      ensures r.Success? ==> r.value.Keys == nodes.Keys
      ensures r.Success? ==> forall n :: n in r.value ==>
                RolesDefined(nodes[n], roles) && r.value[n] == RoleMap(nodes[n], roles, merge, |nodes[n].roleNames|)
      ensures r.Failure? ==> exists i :: 0 <= i < |order| && MissingRoleAt(order, i) && r.error == MissingRoleError(order[i])
    {
      var nodesToRoles := map[];
      var i := 0;
      while i < |order|
        invariant 0 <= i <= |order|
        invariant forall a :: 0 <= a < i ==> RolesDefined(nodes[order[a]], roles)
        invariant nodesToRoles.Keys == set a | 0 <= a < i :: order[a]
        invariant forall n :: n in nodesToRoles ==>
                    RolesDefined(nodes[n], roles) && nodesToRoles[n] == RoleMap(nodes[n], roles, merge, |nodes[n].roleNames|)
      {
        var nodeName := order[i];
        var roleMap := NodeRoles(nodeName, nodes[nodeName], roles, merge);
        if roleMap.Failure? {
          assert MissingRoleAt(order, i);
          return Failure(roleMap.error);
        }
        nodesToRoles := nodesToRoles[nodeName := roleMap.value];
        i := i + 1;
      }
      forall n | n in nodes
        ensures n in nodesToRoles && RolesDefined(nodes[n], roles)
      {
        var a :| 0 <= a < |order| && order[a] == n;
      }
      return Success(nodesToRoles);
    }

    /** The node at position `i` of `order` is the first one naming a
        missing role. */
    predicate MissingRoleAt(order: seq<string>, i: nat)
      requires forall a :: 0 <= a < |order| ==> order[a] in nodes
    {
      && i < |order|
      && !RolesDefined(nodes[order[i]], roles)
      && forall a :: 0 <= a < i ==> RolesDefined(nodes[order[a]], roles)
    }

    /** The error for a node that names a missing role: it names the node
        and its first missing role. */
    function MissingRoleError(nodeName: string): string
      requires nodeName in nodes && !RolesDefined(nodes[nodeName], roles)
    {
      var names := nodes[nodeName].roleNames;
      MissingRoleMessage(nodeName, names[MissingRoleIndex(names, roles)], names)
    }
  }
}
