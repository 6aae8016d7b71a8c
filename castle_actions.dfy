/** Node paths the actions create, sync to and start from.  Their values are
    defined outside this model; only their identity matters here. */
module ActionPaths {
  const KafkaRoot: string
  const KafkaOplogs: string
  const KafkaLogs: string
  const KafkaConf: string
  const KafkaBrokerProperties: string
  const KafkaBrokerLog4j: string
  const KafkaStartScript: string
  const KafkaSrc: string
  const SchemaRegistrySrc: string
  const CastleSrc: string
  const LogsRoot: string
}

/** The castle actions whose declarations are fixed data: their identities,
    dependencies, implied types and delays, what those declarations make the
    scheduler do, and the remote steps their `call` bodies issue. */
module CastleActions {
  import opened Wrappers
  import opened Actions
  import opened Selection
  import opened BuildProperties
  import opened Scheduling
  import opened BrokerRoles
  import ActionPaths

  const DaemonStartType: string := "daemonStart"
  const BrokerStartType: string := "brokerStart"
  const BrokerStopType: string := "brokerStop"
  const SchemaRegistryStopType: string := "schemaRegistryStop"
  const SchemaRegistryStatusType: string := "schemaRegistryStatus"
  const SourceSetupType: string := "sourceSetup"

  /** Type names of actions whose classes are not part of this model. */
  const CollectdStartType: string
  const ZooKeeperStartType: string
  const SchemaRegistryStartType: string
  const TrogdorCoordinatorStartType: string
  const TrogdorAgentStartType: string
  const JmxDumperStartType: string
  const JmxDumperStopType: string
  const LinuxSetupType: string
  const BrokerStatusType: string

  /** The main class of a running schema registry (defined outside this model). */
  const SchemaRegistryClassName: string

  /** Starts every daemon of a new node: it waits for nothing it names, and
      pulls the seven daemon start types into the run. */
  function DaemonStart(scope: string): (a: Action)
    ensures a.id == ActionId(DaemonStartType, scope) && a.initialDelay == 0
    ensures forall p :: !DependsOn(a, p)
    ensures |a.impliedTypeNames| == 7
    ensures forall x: ActionId :: Implies(a, x) <==>
              x.actionType in [BrokerStartType, CollectdStartType, ZooKeeperStartType, SchemaRegistryStartType,
                               TrogdorCoordinatorStartType, TrogdorAgentStartType, JmxDumperStartType]
  {
    Action(ActionId(DaemonStartType, scope), [],
      [BrokerStartType, CollectdStartType, ZooKeeperStartType, SchemaRegistryStartType,
       TrogdorCoordinatorStartType, TrogdorAgentStartType, JmxDumperStartType],
      0)
  }

  /** Starts the broker once every ZooKeeper node has started; its delay is
      the role's. */
  function BrokerStart(scope: string, role: BrokerRole): (a: Action)
    ensures a.id == ActionId(BrokerStartType, scope)
    ensures a.impliedTypeNames == [] && a.initialDelay == role.initialDelayMs
    ensures forall p :: DependsOn(a, p) <==> p.actionType == ZooKeeperStartType
  {
    var a := Action(ActionId(BrokerStartType, scope), [TargetId(ZooKeeperStartType, None)], [], role.initialDelayMs);
    assert forall p: ActionId :: p.actionType == ZooKeeperStartType ==> Matches(a.dependencies[0], p);
    a
  }

  /** Stops the broker of a node after that node's JMX dumper and schema
      registry have stopped. */
  function BrokerStop(scope: string): (a: Action)
    ensures a.id == ActionId(BrokerStopType, scope)
    ensures a.impliedTypeNames == [] && a.initialDelay == 0
    ensures forall p :: DependsOn(a, p) <==>
              p == ActionId(JmxDumperStopType, scope) || p == ActionId(SchemaRegistryStopType, scope)
  {
    var a := Action(ActionId(BrokerStopType, scope),
      [TargetId(JmxDumperStopType, Some(scope)), TargetId(SchemaRegistryStopType, Some(scope))], [], 0);
    assert Matches(a.dependencies[0], ActionId(JmxDumperStopType, scope));
    assert Matches(a.dependencies[1], ActionId(SchemaRegistryStopType, scope));
    a
  }

  /** Stops a schema registry after the JMX dumpers of every node have stopped. */
  function SchemaRegistryStop(scope: string): (a: Action)
    ensures a.id == ActionId(SchemaRegistryStopType, scope)
    ensures a.impliedTypeNames == [] && a.initialDelay == 0
    ensures forall p :: DependsOn(a, p) <==> p.actionType == JmxDumperStopType
  {
    var a := Action(ActionId(SchemaRegistryStopType, scope), [TargetId(JmxDumperStopType, None)], [], 0);
    assert forall p: ActionId :: p.actionType == JmxDumperStopType ==> Matches(a.dependencies[0], p);
    a
  }

  /** Reports the schema registry's status; it waits for nothing it names
      and pulls nothing in. */
  function SchemaRegistryStatus(scope: string): (a: Action)
    ensures a.id == ActionId(SchemaRegistryStatusType, scope)
    ensures a.impliedTypeNames == [] && a.initialDelay == 0
    ensures forall p :: !DependsOn(a, p)
  {
    Action(ActionId(SchemaRegistryStatusType, scope), [], [], 0)
  }

  /** Syncs the source trees to a node once that node's Linux setup is done. */
  function SourceSetup(scope: string): (a: Action)
    ensures a.id == ActionId(SourceSetupType, scope)
    ensures a.impliedTypeNames == [] && a.initialDelay == 0
    ensures forall p :: DependsOn(a, p) <==> p == ActionId(LinuxSetupType, scope)
  {
    var a := Action(ActionId(SourceSetupType, scope), [TargetId(LinuxSetupType, Some(scope))], [], 0);
    assert Matches(a.dependencies[0], ActionId(LinuxSetupType, scope));
    a
  }

  // ---- What the declarations make the scheduler do ----

  /** A selected daemonStart pulls every registered brokerStart into the
      run, each after it. */
  lemma DaemonStartPullsBrokerStart(reg: map<ActionId, Action>, names: seq<string>, n: string, b: ActionId)
    requires ActionId(DaemonStartType, n) in reg && reg[ActionId(DaemonStartType, n)] == DaemonStart(n)
    requires BuildGraph(reg, names).Success? && ActionId(DaemonStartType, n) in BuildGraph(reg, names).value.preds
    requires b in reg && b.actionType == BrokerStartType
    ensures b in BuildGraph(reg, names).value.preds
    ensures ActionId(DaemonStartType, n) in BuildGraph(reg, names).value.preds[b]
  {
    var d := ActionId(DaemonStartType, n);
    assert b.actionType[0] != d.actionType[0];
    BuildSelectsImplied(reg, names, d, b);
  }

  /** A selected brokerStart pulls every registered zooKeeperStart into the
      run and waits for each of them. */
  lemma BrokerStartWaitsForZooKeeper(reg: map<ActionId, Action>, names: seq<string>, role: BrokerRole,
                                     n: string, z: ActionId)
    requires ZooKeeperStartType != BrokerStartType
    requires ActionId(BrokerStartType, n) in reg && reg[ActionId(BrokerStartType, n)] == BrokerStart(n, role)
    requires BuildGraph(reg, names).Success? && ActionId(BrokerStartType, n) in BuildGraph(reg, names).value.preds
    requires z in reg && z.actionType == ZooKeeperStartType
    ensures z in BuildGraph(reg, names).value.preds
    ensures z in BuildGraph(reg, names).value.preds[ActionId(BrokerStartType, n)]
  {
    BuildSelectsDependencies(reg, names, ActionId(BrokerStartType, n), z);
  }

  /** In every complete run order, a selected daemonStart runs before every
      brokerStart, and every zooKeeperStart runs before every brokerStart. */
  lemma DaemonStartOrder(reg: map<ActionId, Action>, names: seq<string>, role: BrokerRole,
                         order: seq<ActionId>, n: string, m: string, z: ActionId)
    requires ZooKeeperStartType != BrokerStartType
    requires ActionId(DaemonStartType, n) in reg && reg[ActionId(DaemonStartType, n)] == DaemonStart(n)
    requires ActionId(BrokerStartType, m) in reg && reg[ActionId(BrokerStartType, m)] == BrokerStart(m, role)
    requires z in reg && z.actionType == ZooKeeperStartType
    requires BuildGraph(reg, names).Success? && ActionId(DaemonStartType, n) in BuildGraph(reg, names).value.preds
    requires ValidOrder(BuildGraph(reg, names).value, order)
    ensures Before(order, ActionId(DaemonStartType, n), ActionId(BrokerStartType, m))
    ensures Before(order, z, ActionId(BrokerStartType, m))
  {
    var g := BuildGraph(reg, names).value;
    var d, b := ActionId(DaemonStartType, n), ActionId(BrokerStartType, m);
    DaemonStartPullsBrokerStart(reg, names, n, b);
    BrokerStartWaitsForZooKeeper(reg, names, role, m, z);
    EdgeRespected(g, order, d, b);
    EdgeRespected(g, order, z, b);
  }

  /** A selected brokerStop on node `n` pulls in that node's
      schemaRegistryStop, which waits for the JMX dumper stop of every node;
      so brokerStop@n starts only after every jmxDumperStop. */
  lemma BrokerStopOrder(reg: map<ActionId, Action>, names: seq<string>, order: seq<ActionId>,
                        n: string, j: ActionId)
    requires JmxDumperStopType != SchemaRegistryStopType && JmxDumperStopType != BrokerStopType
    requires ActionId(BrokerStopType, n) in reg && reg[ActionId(BrokerStopType, n)] == BrokerStop(n)
    requires ActionId(SchemaRegistryStopType, n) in reg
    requires reg[ActionId(SchemaRegistryStopType, n)] == SchemaRegistryStop(n)
    requires j in reg && j.actionType == JmxDumperStopType
    requires BuildGraph(reg, names).Success? && ActionId(BrokerStopType, n) in BuildGraph(reg, names).value.preds
    requires ValidOrder(BuildGraph(reg, names).value, order)
    ensures Before(order, j, ActionId(SchemaRegistryStopType, n))
    ensures Before(order, ActionId(SchemaRegistryStopType, n), ActionId(BrokerStopType, n))
    ensures Before(order, j, ActionId(BrokerStopType, n))
  {
    var g := BuildGraph(reg, names).value;
    var bs, ss := ActionId(BrokerStopType, n), ActionId(SchemaRegistryStopType, n);
    BuildSelectsDependencies(reg, names, bs, ss);
    BuildSelectsDependencies(reg, names, ss, j);
    EdgeRespected(g, order, ss, bs);
    EdgeRespected(g, order, j, ss);
    BeforeTransitive(order, j, ss, bs);
  }

  /** A selected sourceSetup on node `n` waits for that node's linuxSetup
      when one is registered, and for no other action except those that
      imply its type. */
  lemma SourceSetupWaitsForLinuxSetup(reg: map<ActionId, Action>, names: seq<string>, n: string)
    requires LinuxSetupType != SourceSetupType
    requires ActionId(SourceSetupType, n) in reg && reg[ActionId(SourceSetupType, n)] == SourceSetup(n)
    requires BuildGraph(reg, names).Success? && ActionId(SourceSetupType, n) in BuildGraph(reg, names).value.preds
    ensures ActionId(LinuxSetupType, n) in reg ==>
              ActionId(LinuxSetupType, n) in BuildGraph(reg, names).value.preds[ActionId(SourceSetupType, n)]
    ensures forall p :: p in BuildGraph(reg, names).value.preds[ActionId(SourceSetupType, n)] ==>
              p == ActionId(LinuxSetupType, n) || Implies(reg[p], ActionId(SourceSetupType, n))
  {
    var s := ActionId(SourceSetupType, n);
    if ActionId(LinuxSetupType, n) in reg {
      BuildSelectsDependencies(reg, names, s, ActionId(LinuxSetupType, n));
    }
    forall p | p in BuildGraph(reg, names).value.preds[s]
      ensures p == ActionId(LinuxSetupType, n) || Implies(reg[p], s)
    {
      BuildEdgesExact(reg, names, s, p);
    }
  }

  /** A `type:scope` name of a registered action builds, selecting that
      action and whatever it pulls in. */
  lemma ScopedRequestBuilds(reg: map<ActionId, Action>, t: string, n: string)
    requires ':' !in t
    requires ActionId(t, n) in reg
    ensures BuildGraph(reg, [t + ":" + n]).Success?
    ensures ActionId(t, n) in BuildGraph(reg, [t + ":" + n]).value.preds
  {
    var names := [t + ":" + n];
    RequestedNameMatches(reg, t, n);
    assert Matching(reg, ParseTargetName(names[0])) == {ActionId(t, n)};
    assert AllResolve(reg, names);
    BuildFailsOnUnknownTarget(reg, names);
    BuildSelectsRequested(reg, names, ActionId(t, n));
  }

  /** A `type:scope` name of a registered action that names no dependency
      and implies no type selects that action and nothing else. */
  lemma ScopedRequestSelectsOnly(reg: map<ActionId, Action>, t: string, n: string)
    requires ':' !in t
    requires ActionId(t, n) in reg
    requires reg[ActionId(t, n)].impliedTypeNames == [] && forall p :: !DependsOn(reg[ActionId(t, n)], p)
    ensures BuildGraph(reg, [t + ":" + n]).Success?
    ensures BuildGraph(reg, [t + ":" + n]).value.preds.Keys == {ActionId(t, n)}
  {
    var a := ActionId(t, n);
    var names := [t + ":" + n];
    ScopedRequestBuilds(reg, t, n);
    assert Successors(reg, {a}) == {};
    forall id | id in reg && Requested(names, id)
      ensures id in {a}
    {
      RequestedNameMatches(reg, t, n);
      assert id in Matching(reg, ParseTargetName(names[0]));
    }
    BuildSelectsNothingElse(reg, names, {a});
  }

  /** Requesting one registered action by its `type:scope` name, when that
      action names no dependency and implies no type, runs it alone. */
  lemma ScopedRequestRunsAlone(reg: map<ActionId, Action>, t: string, n: string)
    requires ':' !in t
    requires ActionId(t, n) in reg
    requires reg[ActionId(t, n)].impliedTypeNames == [] && forall p :: !DependsOn(reg[ActionId(t, n)], p)
    ensures BuildGraph(reg, [t + ":" + n]).Success?
    ensures BuildGraph(reg, [t + ":" + n]).value.preds == map[ActionId(t, n) := {}]
  {
    var a := ActionId(t, n);
    var names := [t + ":" + n];
    ScopedRequestSelectsOnly(reg, t, n);
    var g := BuildGraph(reg, names).value;
    forall p | p in g.preds[a]
      ensures false
    {
      BuildEdgesExact(reg, names, a, p);
    }
    assert g.preds[a] == {};
  }

  /** A schemaRegistryStatus pulls nothing into a run: requesting one
      registered status action by its `type:scope` name runs it alone. */
  lemma SchemaRegistryStatusRunsAlone(reg: map<ActionId, Action>, n: string)
    requires ActionId(SchemaRegistryStatusType, n) in reg
    requires reg[ActionId(SchemaRegistryStatusType, n)] == SchemaRegistryStatus(n)
    ensures BuildGraph(reg, [SchemaRegistryStatusType + ":" + n]).Success?
    ensures BuildGraph(reg, [SchemaRegistryStatusType + ":" + n]).value.preds
              == map[ActionId(SchemaRegistryStatusType, n) := {}]
  {
    ScopedRequestRunsAlone(reg, SchemaRegistryStatusType, n);
  }

  // ---- The remote steps of the `call` bodies ----

  /** One effect of a `call`: a line in the node's log, a validation of a
      configured path, a remote command, a sync, or a kill of a Java process
      (`flag` is the last argument to CastleUtil.killJavaProcess). */
  datatype Step =
    | Log(line: string)
    | ValidateKafkaPath
    | ValidateSchemaRegistryPath
    | ValidateCastlePath
    | Command(args: seq<string>)
    | SyncTo(source: string, destination: string)
    | KillJavaProcess(className: string, flag: bool)

  /** Whether a step reaches the node. */
  predicate Remote(s: Step)
  {
    s.Command? || s.SyncTo? || s.KillJavaProcess?
  }

  /** The log line of a `call` skipped because the node cannot be reached. */
  function SkipLine(actionType: string, reason: string): string
  {
    "*** Skipping " + actionType + ", because the node is " + reason + ".\n"
  }

  /** brokerStop's `call`: when the node cannot log in it only logs;
      otherwise it kills the broker process, once. */
  function BrokerStopCall(canLogin: bool): (steps: seq<Step>)
    ensures |steps| == 1
    ensures !canLogin ==> steps[0] == Log(SkipLine(BrokerStopType, "not running"))
    ensures canLogin ==> steps[0] == KillJavaProcess(KafkaClassName, true)
    ensures canLogin <==> exists i :: 0 <= i < |steps| && Remote(steps[i])
  {
    if !canLogin then [Log(SkipLine(BrokerStopType, "not running"))]
    else [KillJavaProcess(KafkaClassName, true)]
  }

  /** schemaRegistryStop's `call`: when the node cannot log in it only logs;
      otherwise it kills the schema registry process, once. */
  function SchemaRegistryStopCall(canLogin: bool): (steps: seq<Step>)
    ensures |steps| == 1
    ensures !canLogin ==> steps[0] == Log(SkipLine(SchemaRegistryStopType, "not accessible"))
    ensures canLogin ==> steps[0] == KillJavaProcess(SchemaRegistryClassName, false)
    ensures canLogin <==> exists i :: 0 <= i < |steps| && Remote(steps[i])
  {
    if !canLogin then [Log(SkipLine(SchemaRegistryStopType, "not accessible"))]
    else [KillJavaProcess(SchemaRegistryClassName, false)]
  }

  /** The directories sourceSetup creates and hands to the login user. */
  function SourceDirectories(): seq<string>
  {
    [ActionPaths.KafkaSrc, ActionPaths.SchemaRegistrySrc, ActionPaths.CastleSrc, ActionPaths.LogsRoot]
  }

  /** `mkdir -p` and then `chown -R` over the same four directories, in the
      same order, joined by `&&`. */
  function SetupDirectoriesCommand(): (args: seq<string>)
    ensures |args| == 16
    ensures args[..3] == ["sudo", "mkdir", "-p"] && args[7..12] == ["&&", "sudo", "chown", "-R", "`whoami`"]
    ensures args[3..7] == args[12..] == SourceDirectories()
  {
    ["sudo", "mkdir", "-p"] + SourceDirectories() + ["&&", "sudo", "chown", "-R", "`whoami`"] + SourceDirectories()
  }

  /** The syncs of a step list, in order. */
  function Syncs(steps: seq<Step>): (r: seq<Step>)
    ensures |r| <= |steps|
    ensures forall i :: 0 <= i < |r| ==> r[i].SyncTo?
  {
    if |steps| == 0 then []
    else (if steps[0].SyncTo? then [steps[0]] else []) + Syncs(steps[1..])
  }

  lemma {:induction false} SyncsOnly(s: seq<Step>)
    requires forall i :: 0 <= i < |s| ==> s[i].SyncTo?
    ensures Syncs(s) == s
  {
    if |s| > 0 {
      SyncsOnly(s[1..]);
    }
  }

  lemma {:induction false} SyncsNone(s: seq<Step>)
    requires forall i :: 0 <= i < |s| ==> !s[i].SyncTo?
    ensures Syncs(s) == []
  {
    if |s| > 0 {
      SyncsNone(s[1..]);
    }
  }

  lemma SyncsAppend(s: seq<Step>, t: seq<Step>)
    ensures Syncs(s + t) == Syncs(s) + Syncs(t)
  {
    if |s| > 0 {
      assert (s + t)[1..] == s[1..] + t;
      SyncsAppend(s[1..], t);
    } else {
      assert s + t == t;
    }
  }

  /** The syncs sourceSetup issues: the Kafka tree, then the schema registry
      tree when its path is configured, then the castle tree. */
  function SourceSyncs(kafkaPath: string, schemaRegistryPath: string, castlePath: string): seq<Step>
  {
    [SyncTo(kafkaPath + "/", ActionPaths.KafkaSrc + "/")]
    + (if schemaRegistryPath != "" then [SyncTo(schemaRegistryPath + "/", ActionPaths.SchemaRegistrySrc + "/")] else [])
    + [SyncTo(castlePath + "/", ActionPaths.CastleSrc + "/")]
  }

  /** sourceSetup's `call`, with the configured source paths as parameters:
      unless the node cannot log in, it validates the three paths, creates
      the directories, and syncs the trees; a node that cannot log in gets
      only a log line. */
  method SourceSetupCall(canLogin: bool, kafkaPath: string, schemaRegistryPath: string, castlePath: string)
    returns (steps: seq<Step>)
    ensures !canLogin ==> steps == [Log(SkipLine(SourceSetupType, "not accessible"))]
    ensures canLogin ==> |steps| >= 4
    ensures canLogin ==> steps[..4] == [ValidateKafkaPath, ValidateSchemaRegistryPath, ValidateCastlePath,
                                        Command(SetupDirectoriesCommand())]
    ensures canLogin ==> steps[4..] == Syncs(steps) == SourceSyncs(kafkaPath, schemaRegistryPath, castlePath)
  {
    if !canLogin {
      steps := [Log(SkipLine(SourceSetupType, "not accessible"))];
      return;
    }
    steps := [ValidateKafkaPath, ValidateSchemaRegistryPath, ValidateCastlePath];
    steps := steps + [Command(SetupDirectoriesCommand())];
    var head := steps;
    steps := steps + [SyncTo(kafkaPath + "/", ActionPaths.KafkaSrc + "/")];
    if schemaRegistryPath != "" {
      steps := steps + [SyncTo(schemaRegistryPath + "/", ActionPaths.SchemaRegistrySrc + "/")];
    }
    steps := steps + [SyncTo(castlePath + "/", ActionPaths.CastleSrc + "/")];
    assert steps == head + SourceSyncs(kafkaPath, schemaRegistryPath, castlePath);
    SyncsAppend(head, SourceSyncs(kafkaPath, schemaRegistryPath, castlePath));
    SyncsNone(head);
    SyncsOnly(SourceSyncs(kafkaPath, schemaRegistryPath, castlePath));
  }

  /** Every tree sourceSetup syncs lands in a directory its setup command has
      just created, and the schema registry tree is synced exactly when its
      path is configured. */
  lemma SourceSyncsIntoCreatedDirectories(kafkaPath: string, schemaRegistryPath: string, castlePath: string)
    ensures forall s :: s in SourceSyncs(kafkaPath, schemaRegistryPath, castlePath) ==>
              exists k :: 3 <= k < 7 && s.destination == SetupDirectoriesCommand()[k] + "/"
    ensures |SourceSyncs(kafkaPath, schemaRegistryPath, castlePath)| == if schemaRegistryPath == "" then 2 else 3
  {
    var args := SetupDirectoriesCommand();
    forall s | s in SourceSyncs(kafkaPath, schemaRegistryPath, castlePath)
      ensures exists k :: 3 <= k < 7 && s.destination == args[k] + "/"
    {
      if s.destination == ActionPaths.KafkaSrc + "/" {
        assert s.destination == args[3] + "/";
      } else if s.destination == ActionPaths.SchemaRegistrySrc + "/" {
        assert s.destination == args[4] + "/";
      } else {
        assert s.destination == args[5] + "/";
      }
    }
  }
}
