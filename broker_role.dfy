/** The broker role: its JSON-created settings with their defaults, and the
    `bootstrapServers` dynamic variable it provides. */
module BrokerRoles {
  import opened Wrappers
  import opened Strings

  /** The main class of a running broker. */
  const KafkaClassName: string := "kafka.Kafka"

  const DefaultJvmPerformanceOpts: string := "-Xmx3g -Xms3g"

  const DefaultExternalAuth: string := "PLAINTEXT"

  /** The port every broker listens on, as it appears in addresses and
      listener settings. */
  const PortText: string := "9092"

  /** A broker role as its accessors return it. */
  datatype BrokerRole = BrokerRole(
    initialDelayMs: int,
    conf: map<string, string>,
    jvmOptions: string,
    externalAuth: string)

  /** The settings a constructed role always has: JVM options are never empty. */
  predicate Normalised(r: BrokerRole)
  {
    r.jvmOptions != ""
  }

  /** The JSON creator: a missing (`None`) conf becomes the empty map, missing
      or empty JVM options become the default, and a missing external auth
      becomes PLAINTEXT while an empty one is kept. */
  function NewBrokerRole(initialDelayMs: int, conf: Option<map<string, string>>,
                         jvmOptions: Option<string>, externalAuth: Option<string>): (r: BrokerRole)
    ensures Normalised(r)
    ensures r.initialDelayMs == initialDelayMs
    ensures conf.None? ==> r.conf == map[]
    ensures conf.Some? ==> r.conf == conf.value
    ensures r.jvmOptions == DefaultJvmPerformanceOpts <==>
              jvmOptions.None? || jvmOptions.value in {"", DefaultJvmPerformanceOpts}
    ensures jvmOptions.Some? && jvmOptions.value != "" ==> r.jvmOptions == jvmOptions.value
    ensures externalAuth.Some? ==> r.externalAuth == externalAuth.value
    ensures externalAuth.None? ==> r.externalAuth == DefaultExternalAuth
  {
    BrokerRole(
      initialDelayMs,
      if conf.None? then map[] else conf.value,
      if jvmOptions.None? || jvmOptions.value == "" then DefaultJvmPerformanceOpts else jvmOptions.value,
      if externalAuth.None? then DefaultExternalAuth else externalAuth.value)
  }

  /** Writing a constructed role out through its accessors and reading it
      back gives the same role, and every role the creator can return is
      normalised; so the defaults are applied once and are stable. */
  lemma RoleRoundTrip(r: BrokerRole)
    ensures Normalised(r) <==>
              NewBrokerRole(r.initialDelayMs, Some(r.conf), Some(r.jvmOptions), Some(r.externalAuth)) == r
  {
  }

  /** One `bootstrapServers` entry: a broker's internal DNS name and the port. */
  function ServerAddress(dns: string): string
  {
    dns + ":" + PortText
  }

  /** The addresses of the named brokers, in iteration order. */
  function Addresses(dnsOf: map<string, string>, brokers: seq<string>): (r: seq<string>)
    requires forall i :: 0 <= i < |brokers| ==> brokers[i] in dnsOf
    ensures |r| == |brokers|
    ensures forall i :: 0 <= i < |r| ==> r[i] == ServerAddress(dnsOf[brokers[i]])
  {
    seq(|brokers|, i requires 0 <= i < |brokers| => ServerAddress(dnsOf[brokers[i]]))
  }

  /** The `bootstrapServers` variable: the loop over the broker nodes (in the
      order the cluster lists them), looking up each node's internal DNS name
      in `dnsOf`, with a separator that is empty before the first entry and
      "," afterwards. */
  method BootstrapServers(dnsOf: map<string, string>, brokers: seq<string>) returns (servers: string)
    requires forall i :: 0 <= i < |brokers| ==> brokers[i] in dnsOf
    ensures servers == Join(Addresses(dnsOf, brokers), ",")
    ensures servers == "" <==> |brokers| == 0
  {
    var addresses := Addresses(dnsOf, brokers);
    servers := "";
    var prefix := "";
    var i := 0;
    while i < |brokers|
      invariant 0 <= i <= |brokers|
      invariant i == 0 ==> servers == "" && prefix == ""
      invariant i > 0 ==> servers == Join(addresses[..i], ",") && prefix == "," && |servers| > 0
    {
      servers := servers + prefix;
      prefix := ",";
      servers := servers + ServerAddress(dnsOf[brokers[i]]);
      JoinSnoc(addresses[..i], addresses[i], ",");
      assert addresses[..i + 1] == addresses[..i] + [addresses[i]];
      i := i + 1;
    }
    assert addresses[..i] == addresses;
  }

  /** Appending one piece to a non-empty join adds one separator. */
  lemma {:induction false} JoinSnoc(xs: seq<string>, x: string, sep: string)
    ensures Join(xs + [x], sep) == if |xs| == 0 then x else Join(xs, sep) + sep + x
  {
    if |xs| > 1 {
      JoinSnoc(xs[1..], x, sep);
      assert (xs + [x])[1..] == xs[1..] + [x];
    } else if |xs| == 1 {
      assert (xs + [x])[1..] == [x];
    }
  }

  /** A bootstrap string can be cut back into its addresses at the commas,
      as long as no DNS name contains a comma: it has one entry per broker,
      with no empty entry and no stray separator at either end. */
  lemma BootstrapServersSplit(dnsOf: map<string, string>, brokers: seq<string>)
    requires |brokers| >= 1
    requires forall i :: 0 <= i < |brokers| ==> brokers[i] in dnsOf && ',' !in dnsOf[brokers[i]]
    ensures Split(Join(Addresses(dnsOf, brokers), ","), ',') == Addresses(dnsOf, brokers)
  {
    var xs := Addresses(dnsOf, brokers);
    forall i | 0 <= i < |xs|
      ensures ',' !in xs[i]
    {
      assert xs[i] == dnsOf[brokers[i]] + ":" + PortText;
    }
    SplitJoin(xs, ',');
  }
}

/** The actions a broker role contributes to each of its nodes. */
module BrokerRoleActions {
  import opened Actions
  import opened BrokerRoles
  import opened CastleActions

  /** createActions: start, status and stop for the node, in that order.
      The status action's declaration is not part of this model and is
      passed in as `status`. */
  function CreateActions(role: BrokerRole, nodeName: string, status: Action): (actions: seq<Action>)
    requires status.id == ActionId(BrokerStatusType, nodeName)
    ensures |actions| == 3
    ensures actions[0] == BrokerStart(nodeName, role) && actions[2] == BrokerStop(nodeName)
    ensures forall i :: 0 <= i < 3 ==> actions[i].id.scope == nodeName
    ensures actions[0].id.actionType == BrokerStartType
    ensures actions[1].id.actionType == BrokerStatusType
    ensures actions[2].id.actionType == BrokerStopType
  {
    [BrokerStart(nodeName, role), status, BrokerStop(nodeName)]
  }

  /** The three actions of one node have distinct identities, so a builder
      registers all three, and actions of different nodes never collide. */
  lemma CreateActionsDistinct(role: BrokerRole, n: string, m: string, sn: Action, sm: Action, i: nat, j: nat)
    requires BrokerStatusType != BrokerStartType && BrokerStatusType != BrokerStopType
    requires sn.id == ActionId(BrokerStatusType, n) && sm.id == ActionId(BrokerStatusType, m)
    requires i < 3 && j < 3
    requires CreateActions(role, n, sn)[i].id == CreateActions(role, m, sm)[j].id
    ensures i == j && n == m
  {
    assert BrokerStartType != BrokerStopType by {
      assert BrokerStartType[8] != BrokerStopType[8];
    }
  }
}
