# castle core, modelled in Dafny

castle sets up and drives test clusters of Kafka brokers, ZooKeeper, schema
registries and helper daemons.  Everything castle does to a cluster is an
*action*: a unit of work identified by a type and a scope (a node name).  An
action declares which actions it waits for and which action types it pulls
into the run.  The action scheduler takes the registered actions and a list
of requested target names.  It selects the actions the run needs, orders them
so that each one starts after everything it waits for, and runs them.

This project models:

- **The action scheduler** (`actions.dfy`, `selection.dfy`, `scheduler.dfy`).
  - The scheduler's own source is not part of this model.  Its contract comes
    from its test file, `ActionSchedulerTest.java`.
  - Target names are `type` or `type:scope`, split at the first colon.
  - A `TargetId` without a scope names every action of its type; one with a
    scope names one action.
  - `build()` resolves the requested names and then closes the selection to a
    fixed point under dependencies and implied types.
  - The edges of the run are the dependency matches, plus an edge from each
    implier to every selected action of an implied type.
  - The run loop keeps a ready count per pending action and produces one
    linear execution order.  It ends either with every selected action run
    exactly once, in an order that respects every edge, or with a *stuck* set
    in which every action waits for another one of the set.
- **The scheduler test scenarios** (`scenarios.dfy`).  Each test of
  `ActionSchedulerTest.java` becomes methods and lemmas over that model, stated
  for any node names and type names with the tests' shape.
- **The concrete actions** (`castle_actions.dfy`): the declarations of
  daemonStart, brokerStart, brokerStop, schemaRegistryStop,
  schemaRegistryStatus and sourceSetup, and the ordering facts they impose on
  any run.  The `call` bodies of brokerStop, schemaRegistryStop and
  sourceSetup are modelled as the list of steps each one issues.
- **brokerStart's helpers** (`broker_start.dfy`):
  - the broker-id lookup and the default broker settings;
  - the setup and run-daemon command lines;
  - the lines of the broker properties file and of a log4j appender block.
- **The broker role** (`broker_role.dfy`): its JSON defaults, the three
  actions it gives each node, and the `bootstrapServers` string.
- **The cluster specification** (`cluster_spec.dfy`):
  - defaults for missing settings;
  - expansion of node-name patterns;
  - per-node role maps with their missing-role error.
- **The JMX dumper configuration map** (`jmx_dumpers.dfy`).
- **The CSV grapher's column handling** (`graph_csv.dfy`, from `bin/graph_csv.py`):
  - the title-row filter and the row filter;
  - the checks made when a file is opened, and the column labels.

Type names and paths that belong to classes outside this model are
module constants without a value, such as `ZooKeeperStartType` and
`ActionPaths.KafkaLogs`.  Where a proof needs two of them to differ, the
lemma requires it.

## Design and code

The written design of the scheduler says three things the tests do not
support:

- A dependency that names no registered action fails the build.
  `testMaxConcurrentActions` registers bar@node1 with a dependency on the type
  `node1`, which no action has, and expects all five actions to run
  (`ActionSchedulerTest.java:300-309,334`).  The model follows the test: such a
  dependency adds no edge (`Scenarios.MaxDependencyUnmatched`,
  `Scenarios.MaxBarWaitsForFoos`).
- Self-edges are rejected and cycles are reported by `build()`.  In the model,
  self-edges are dropped and a cycle shows up as the stuck set the run loop
  returns.
- A duplicate `addAction` fails.  In the model, `AddAction` refuses the
  duplicate, reports it through its result and leaves the registry unchanged.

## Model

Source paths are relative to the repository root.

| member | source | states |
|---|---|---|
| Actions.MatchesExactlyOrByType | src/test/java/io/confluent/castle/action/ActionSchedulerTest.java:137-166 | a scoped TargetId names exactly type@scope; an unscoped one names every action of its type, whatever the scope |
| Actions.ParseTargetName | src/test/java/io/confluent/castle/action/ActionSchedulerTest.java:242-243 | a name without a colon is a bare type; a name with one gets a scope, and its type part holds no colon (split at the first colon) |
| Actions.TargetNameRoundTrip | src/test/java/io/confluent/castle/action/ActionSchedulerTest.java:242-243 | parsing the name of any TargetId whose type has no colon gives that TargetId back |
| Selection.ErrorMessage | src/test/java/io/confluent/castle/action/ActionSchedulerTest.java:70-83 | the build error text starts with "Unknown target" and ends with the offending name |
| Selection.RequestedNameMatches | src/test/java/io/confluent/castle/action/ActionSchedulerTest.java:176-177 | a bare requested type names every registered action of that type; `type:scope` names only that one identity |
| Selection.ResolveNames | src/test/java/io/confluent/castle/action/ActionSchedulerTest.java:70-83 | a successful resolution selects only registered actions |
| Selection.ResolveNamesSucceeds | src/test/java/io/confluent/castle/action/ActionSchedulerTest.java:70-83 | resolution succeeds if and only if every requested name names at least one registered action |
| Selection.ResolveNamesSeeds | src/test/java/io/confluent/castle/action/ActionSchedulerTest.java:85-110 | an action is seeded if and only if it is registered and some requested name names it |
| Selection.ResolveNamesFailure | src/test/java/io/confluent/castle/action/ActionSchedulerTest.java:70-83 | a failed resolution reports the first requested name that names nothing, and every earlier name resolves |
| Selection.ResolvePrefixFailure | src/test/java/io/confluent/castle/action/ActionSchedulerTest.java:70-83 | once a prefix of the names fails, adding more names does not change the error |
| Selection.Successors | src/test/java/io/confluent/castle/action/ActionSchedulerTest.java:137-143 | one expansion step only reaches registered actions |
| Selection.SuccessorsMonotonic | src/test/java/io/confluent/castle/action/ActionSchedulerTest.java:137-143 | expanding a larger set reaches at least as much |
| Selection.Close | src/test/java/io/confluent/castle/action/ActionSchedulerTest.java:134-177 | the selection contains the seeds, stays inside the registry and is closed under dependencies and implied types |
| Selection.CloseLeast | src/test/java/io/confluent/castle/action/ActionSchedulerTest.java:134-177 | the selection is the least such set: it lies inside every closed set that contains the seeds |
| Selection.ResolveEdges | src/test/java/io/confluent/castle/action/ActionSchedulerTest.java:137-166 | the edges stay inside the selection, no action waits for itself, and every selected action has an entry |
| Selection.BuildGraph | src/test/java/io/confluent/castle/action/ActionSchedulerTest.java:176-178 | a built run is well formed, keeps the registry and selects only registered actions |
| BuildProperties.BuildFailsOnUnknownTarget | src/test/java/io/confluent/castle/action/ActionSchedulerTest.java:70-83 | the build fails if and only if some requested name names nothing; the error then names such a name |
| BuildProperties.BuildSelectsRequested | src/test/java/io/confluent/castle/action/ActionSchedulerTest.java:85-110 | every registered action that a requested name names is selected |
| BuildProperties.BuildSelectsDependencies | src/test/java/io/confluent/castle/action/ActionSchedulerTest.java:162-166 | a registered action that a selected action's dependency names is selected, and the dependent waits for it |
| BuildProperties.BuildSelectsImplied | src/test/java/io/confluent/castle/action/ActionSchedulerTest.java:140-143 | every registered action of a type that a selected action implies is selected and waits for its implier |
| BuildProperties.BuildSelectsNothingElse | src/test/java/io/confluent/castle/action/ActionSchedulerTest.java:193-202 | the selection lies inside every set that contains the seeds and is closed under dependencies and implications |
| BuildProperties.BuildIndependent | src/test/java/io/confluent/castle/action/ActionSchedulerTest.java:92-104 | when no registered action declares dependencies or implied types, every selected action waits for nothing |
| BuildProperties.BuildEdgesExact | src/test/java/io/confluent/castle/action/ActionSchedulerTest.java:137-166 | `a` waits for `p` if and only if both are selected, they differ, and either `a` has a dependency naming `p` or `p` implies `a`'s type |
| Scheduling.PredecessorRunsBefore | src/test/java/io/confluent/castle/action/ActionSchedulerTest.java:181-183 | in any run so far, every predecessor of an action that has run ran earlier |
| Scheduling.EdgeRespected | src/test/java/io/confluent/castle/action/ActionSchedulerTest.java:181-183 | in a complete run, every edge goes from an earlier action to a later one |
| Scheduling.BeforeTransitive | src/test/java/io/confluent/castle/action/ActionSchedulerTest.java:181-183 | "runs before" is transitive |
| Scheduling.RunPrefixDistinct | src/test/java/io/confluent/castle/action/ActionSchedulerTest.java:85-110 | a run never runs an action twice |
| Scheduling.RunPrefixSelected | src/test/java/io/confluent/castle/action/ActionSchedulerTest.java:85-110 | a run only runs selected actions |
| Scheduling.ValidOrderRunsEachOnce | src/test/java/io/confluent/castle/action/ActionSchedulerTest.java:85-110 | a complete run is exactly as long as the selection, so each selected action runs exactly once |
| Scheduling.OrderedGraphNeverStuck | src/test/java/io/confluent/castle/action/ActionSchedulerTest.java:244-247 | when a complete run exists, no set of actions is stuck |
| Scheduling.RankedGraphNeverStuck | src/test/java/io/confluent/castle/action/ActionSchedulerTest.java:244-247 | a run whose edges all climb a rank has no stuck set |
| Scheduling.LayeredBuildRanked | src/test/java/io/confluent/castle/action/ActionSchedulerTest.java:134-177 | when action types sit on levels so that dependencies point down and implications point up, every edge of a built run climbs the level |
| Scheduling.LayeredBuildNeverStuck | src/test/java/io/confluent/castle/action/ActionSchedulerTest.java:178-183 | such a built run never gets stuck |
| Scheduling.ExtendRunPrefix | src/test/java/io/confluent/castle/action/ActionSchedulerTest.java:85-110 | running a pending action whose predecessors have all run extends a run |
| Scheduling.Decremented | src/test/java/io/confluent/castle/action/ActionSchedulerTest.java:178-183 | after `a` runs, `a` leaves the pending set and every pending count is again its number of predecessors that have not run |
| Scheduling.NoReadyActionIsStuck | src/test/java/io/confluent/castle/action/ActionSchedulerTest.java:178-183 | when no pending action is ready, the pending actions form a stuck set |
| Scheduling.FinishedRunIsComplete | src/test/java/io/confluent/castle/action/ActionSchedulerTest.java:178-183 | a run that leaves nothing pending is complete |
| Scheduling.Builder.constructor | src/test/java/io/confluent/castle/action/ActionSchedulerTest.java:63-64 | a new builder has no actions and no names |
| Scheduling.Builder.AddAction | src/test/java/io/confluent/castle/action/ActionSchedulerTest.java:91-104 | a new identity is registered under its own id; a registered one is refused and nothing changes; the names are untouched |
| Scheduling.Builder.AddTargetName | src/test/java/io/confluent/castle/action/ActionSchedulerTest.java:176-177 | the name is appended to the requested names; the actions are untouched |
| Scheduling.Builder.Build | src/test/java/io/confluent/castle/action/ActionSchedulerTest.java:178-180 | the result is `BuildGraph` of the registered actions and the requested names |
| Scheduling.Scheduler.constructor | src/test/java/io/confluent/castle/action/ActionSchedulerTest.java:178-180 | every selected action starts pending, with a count equal to its number of predecessors |
| Scheduling.Scheduler.Complete | src/test/java/io/confluent/castle/action/ActionSchedulerTest.java:178-183 | running a ready action appends it to the order, removes it from the pending set and keeps the counts matching |
| Scheduling.Scheduler.Run | src/test/java/io/confluent/castle/action/ActionSchedulerTest.java:178-183 | the returned set is the selection minus what ran, and it is stuck; when it is empty the order is a complete run |
| Scenarios.CreateDestroy | src/test/java/io/confluent/castle/action/ActionSchedulerTest.java:61-68 | a builder with nothing registered and nothing requested runs nothing and is not stuck |
| Scenarios.InvalidTargetName | src/test/java/io/confluent/castle/action/ActionSchedulerTest.java:70-83 | requesting an unregistered name fails with UnknownTarget for that name, and the message starts with "Unknown target" |
| Scenarios.RunActions | src/test/java/io/confluent/castle/action/ActionSchedulerTest.java:85-111 | with one testAction per node, the run is not stuck and runs each node's action exactly once and nothing else |
| Scenarios.OnePerNodeBuild | src/test/java/io/confluent/castle/action/ActionSchedulerTest.java:92-106 | requesting the bare type selects every node's action |
| Scenarios.OnePerNodeIndependent | src/test/java/io/confluent/castle/action/ActionSchedulerTest.java:92-106 | none of those actions waits for another |
| Scenarios.ContainedBuildSucceeds | src/test/java/io/confluent/castle/action/ActionSchedulerTest.java:176-177 | the bare names foo and bar parse as unscoped references and the build succeeds |
| Scenarios.ContainedBuild | src/test/java/io/confluent/castle/action/ActionSchedulerTest.java:121-177 | every registered action is selected; baz and quux come in only through bar's implied types |
| Scenarios.ContainedEdges | src/test/java/io/confluent/castle/action/ActionSchedulerTest.java:134-174 | on every node, bar waits for foo@node0, baz waits for bar, and quux waits for baz |
| Scenarios.ContainedBarAfterFoo | src/test/java/io/confluent/castle/action/ActionSchedulerTest.java:137-139 | bar@n waits for foo@node0 through its unscoped dependency |
| Scenarios.ContainedBazAfterBar | src/test/java/io/confluent/castle/action/ActionSchedulerTest.java:140-143 | baz@n waits for bar@n, because bar implies baz |
| Scenarios.ContainedQuuxAfterBaz | src/test/java/io/confluent/castle/action/ActionSchedulerTest.java:164-166 | quux@n waits for baz@n through its scoped dependency |
| Scenarios.ContainedOrder | src/test/java/io/confluent/castle/action/ActionSchedulerTest.java:128-183 | in every complete run, on every node: foo@node0, then bar, then baz, then quux (the -1, 0, 1, 2, 3 counter steps) |
| Scenarios.ContainedNeverStuck | src/test/java/io/confluent/castle/action/ActionSchedulerTest.java:178-183 | the contained-dependencies run has no stuck set, so every action runs |
| Scenarios.AllBuildSucceeds | src/test/java/io/confluent/castle/action/ActionSchedulerTest.java:242-243 | foo names every foo and "baz:node1" names only baz@node1; the build succeeds |
| Scenarios.AllBuild | src/test/java/io/confluent/castle/action/ActionSchedulerTest.java:193-243 | every registered action is selected, the bars and quuxes through foo's implied types |
| Scenarios.AllBarWaits | src/test/java/io/confluent/castle/action/ActionSchedulerTest.java:227-240 | every bar waits for each action that is not a bar: baz@node1, every foo and every quux |
| Scenarios.AllOrder | src/test/java/io/confluent/castle/action/ActionSchedulerTest.java:236-237 | in every complete run, each bar runs after all seven actions that are not bars |
| Scenarios.AllNeverStuck | src/test/java/io/confluent/castle/action/ActionSchedulerTest.java:244-247 | the run has no stuck set, so all three bars run |
| Scenarios.MaxDependencyUnmatched | src/test/java/io/confluent/castle/action/ActionSchedulerTest.java:300-309 | bar@node1's only dependency names a type no registered action has |
| Scenarios.MaxBuild | src/test/java/io/confluent/castle/action/ActionSchedulerTest.java:280-331 | requesting foo selects all five actions |
| Scenarios.MaxFooImpliesBar | src/test/java/io/confluent/castle/action/ActionSchedulerTest.java:280-303 | bar@node1 waits for each foo, because foo implies bar |
| Scenarios.MaxBarWaitsForFoos | src/test/java/io/confluent/castle/action/ActionSchedulerTest.java:300-309 | bar@node1 waits for the two foos and nothing else: its unmatched dependency adds no edge and blocks nothing |
| Scenarios.MaxBarPredecessor | src/test/java/io/confluent/castle/action/ActionSchedulerTest.java:300-309 | every predecessor of bar@node1 is one of the two foos |
| Scenarios.MaxOrder | src/test/java/io/confluent/castle/action/ActionSchedulerTest.java:280-331 | in every complete run both foos precede bar@node1, which precedes baz@node1 |
| Scenarios.MaxNeverStuck | src/test/java/io/confluent/castle/action/ActionSchedulerTest.java:331-334 | the run has no stuck set, so all five actions run |
| CastleActions.DaemonStart | src/main/java/io/confluent/castle/action/DaemonStartAction.java:26-38 | the id is daemonStart@scope with delay 0; it depends on nothing; it implies exactly the seven daemon start types: brokerStart, collectdStart, zooKeeperStart, schemaRegistryStart, the Trogdor coordinator and agent starts, and jmxDumperStart |
| CastleActions.BrokerStart | src/main/java/io/confluent/castle/action/BrokerStartAction.java:50-56 | the id is brokerStart@scope, with no implied types and the role's initial delay; it depends on exactly the zooKeeperStart actions of every node |
| CastleActions.BrokerStop | src/main/java/io/confluent/castle/action/BrokerStopAction.java:31-38 | the id is brokerStop@scope, with no implied types and delay 0; it depends on exactly jmxDumperStop@scope and schemaRegistryStop@scope |
| CastleActions.SchemaRegistryStop | src/main/java/io/confluent/castle/action/SchemaRegistryStopAction.java:32-38 | the id is schemaRegistryStop@scope, with no implied types and delay 0; it depends on the jmxDumperStop of every node |
| CastleActions.SchemaRegistryStatus | src/main/java/io/confluent/castle/action/SchemaRegistryStatusAction.java:31-35 | the id is schemaRegistryStatus@scope, with delay 0; it has no dependencies and no implied types |
| CastleActions.SourceSetup | src/main/java/io/confluent/castle/action/SourceSetupAction.java:29-35 | the id is sourceSetup@scope, with no implied types and delay 0; its only dependency is linuxSetup@scope |
| CastleActions.DaemonStartPullsBrokerStart | src/main/java/io/confluent/castle/action/DaemonStartAction.java:29-31 | a selected daemonStart pulls every registered brokerStart into the run, and each waits for it |
| CastleActions.BrokerStartWaitsForZooKeeper | src/main/java/io/confluent/castle/action/BrokerStartAction.java:52-54 | a selected brokerStart pulls in every registered zooKeeperStart and waits for each |
| CastleActions.DaemonStartOrder | src/main/java/io/confluent/castle/action/DaemonStartAction.java:29-36 | in every complete run with daemonStart@n selected, it runs before every registered brokerStart, and every registered zooKeeperStart runs before that brokerStart |
| CastleActions.BrokerStopOrder | src/main/java/io/confluent/castle/action/BrokerStopAction.java:33-36 | in every complete run with brokerStop@n selected and schemaRegistryStop@n registered, every registered jmxDumperStop runs before schemaRegistryStop@n, which runs before brokerStop@n, so brokerStop@n follows every jmxDumperStop |
| CastleActions.SourceSetupWaitsForLinuxSetup | src/main/java/io/confluent/castle/action/SourceSetupAction.java:31-33 | sourceSetup@n waits for linuxSetup@n when it is registered; any other predecessor is an implier |
| CastleActions.ScopedRequestBuilds | src/main/java/io/confluent/castle/action/SchemaRegistryStatusAction.java:31-35 | requesting `type:scope` of a registered action builds and selects it |
| CastleActions.ScopedRequestSelectsOnly | src/main/java/io/confluent/castle/action/SchemaRegistryStatusAction.java:33-34 | when that action has no dependencies and implies nothing, it is the only action selected |
| CastleActions.ScopedRequestRunsAlone | src/main/java/io/confluent/castle/action/SchemaRegistryStatusAction.java:33-34 | the run is then that one action, waiting for nothing |
| CastleActions.SchemaRegistryStatusRunsAlone | src/main/java/io/confluent/castle/action/SchemaRegistryStatusAction.java:31-35 | requesting one registered schemaRegistryStatus by its `type:scope` name runs it alone, waiting for nothing |
| CastleActions.BrokerStopCall | src/main/java/io/confluent/castle/action/BrokerStopAction.java:42-48 | without login the call only logs the "not running" skip line; with login it kills kafka.Kafka once; it reaches the node if and only if it can log in |
| CastleActions.SchemaRegistryStopCall | src/main/java/io/confluent/castle/action/SchemaRegistryStopAction.java:42-48 | without login it only logs the "not accessible" skip line; with login it kills the schema registry class; it reaches the node if and only if it can log in |
| CastleActions.SetupDirectoriesCommand | src/main/java/io/confluent/castle/action/SourceSetupAction.java:61-66 | `sudo mkdir -p` and then `sudo chown -R` run over the same four directories, in the same order |
| CastleActions.SourceSetupCall | src/main/java/io/confluent/castle/action/SourceSetupAction.java:39-59 | without login it only logs; with login the three validations and the mkdir come first, and every later step is a sync, in the order kafka, schema registry, castle |
| CastleActions.SourceSyncsIntoCreatedDirectories | src/main/java/io/confluent/castle/action/SourceSetupAction.java:48-58 | every sync lands in a directory the setup command created; the schema registry tree is synced exactly when its path is not empty |
| BrokerRoles.NewBrokerRole | src/main/java/io/confluent/castle/role/BrokerRole.java:54-68 | the delay is kept; a missing conf becomes empty and a given one is kept; JVM options are the default exactly when missing, empty or equal to it, and other values are kept; a missing external auth becomes PLAINTEXT and an empty one is kept |
| BrokerRoles.RoleRoundTrip | src/main/java/io/confluent/castle/role/BrokerRole.java:54-88 | feeding a role's accessors back to the creator gives the same role if and only if its JVM options are not empty, so the defaults are applied once and are stable |
| BrokerRoles.Addresses | src/main/java/io/confluent/castle/role/BrokerRole.java:106-110 | one `<dns>:9092` address per broker, in order |
| BrokerRoles.BootstrapServers | src/main/java/io/confluent/castle/role/BrokerRole.java:101-113 | the prefix loop builds the comma join of the addresses, which is empty exactly when there are no brokers |
| BrokerRoles.BootstrapServersSplit | src/main/java/io/confluent/castle/role/BrokerRole.java:104-112 | when no DNS name holds a comma, splitting the string at commas gives back exactly the addresses: no empty entry and no stray comma at either end |
| BrokerRoleActions.CreateActions | src/main/java/io/confluent/castle/role/BrokerRole.java:91-97 | three actions for the node: brokerStart, brokerStatus and brokerStop, in that order, all scoped to the node |
| BrokerRoleActions.CreateActionsDistinct | src/main/java/io/confluent/castle/role/BrokerRole.java:91-97 | the actions of one node have distinct identities, and actions of different nodes never collide |
| BrokerStartAction.GetBrokerId | src/main/java/io/confluent/castle/action/BrokerStartAction.java:217-224 | a returned id maps to this node; the lookup fails if and only if no id maps to the node, with "Node <name> does not have the broker role."; when no two ids map to the same node, the id returned is the only one that maps to it, whatever the iteration order |
| BrokerStartAction.GetDefaultConf | src/main/java/io/confluent/castle/action/BrokerStartAction.java:105-119 | the ten puts leave exactly nine keys, with the listed values |
| BrokerStartAction.SetupPathsCommandLine | src/main/java/io/confluent/castle/action/BrokerStartAction.java:87-92 | `-n --`, then rm -rf, mkdir -p and chown of the same three directories joined by `&&`; the chown also covers the Kafka root |
| BrokerStartAction.RunDaemonCommandLine | src/main/java/io/confluent/castle/action/BrokerStartAction.java:94-102 | fourteen arguments, starting `-n -- nohup env`, with JMX_PORT=9192, then the Kafka start script with the broker properties file as its argument, then the redirection of output to stdout-stderr.txt under the log directory, of stderr to stdout and of stdin from /dev/null, and `&` |
| BrokerStartAction.RunDaemonQuotesJvmOptions | src/main/java/io/confluent/castle/action/BrokerStartAction.java:97 | KAFKA_JVM_PERFORMANCE_OPTS carries the role's JVM options unchanged between single quotes |
| BrokerStartAction.BrokerConfigEntries | src/main/java/io/confluent/castle/action/BrokerStartAction.java:135-143 | six fixed settings, then the effective configuration entries in order |
| BrokerStartAction.BrokerConfigLines | src/main/java/io/confluent/castle/action/BrokerStartAction.java:135-143 | six fixed lines in order: broker.id, listeners and advertised.listeners at `<auth>://:9092`, inter.broker.listener.name, log.dirs at the oplog directory, zookeeper.connect; then one key=value line per configuration entry |
| BrokerStartAction.BrokerConfigRoundTrip | src/main/java/io/confluent/castle/action/BrokerStartAction.java:135-143 | when no configuration key holds '=', reading each line back at its first '=' gives the setting that was written |
| BrokerStartAction.AppenderLines | src/main/java/io/confluent/castle/action/BrokerStartAction.java:207-215 | an appender block is exactly five lines |
| BrokerStartAction.AppenderRoundTrip | src/main/java/io/confluent/castle/action/BrokerStartAction.java:207-215 | each line reads back as its setting; every key starts with `log4j.appender.<name>`; the File setting is `<Kafka logs>/<logName>` |
| JmxDumpers.StoredKey | src/main/java/io/confluent/castle/jmx/JmxDumpersConfig.java:35 | a missing key is stored as "", a present key as itself |
| JmxDumpers.JmxDumpersConfig.constructor | src/main/java/io/confluent/castle/jmx/JmxDumpersConfig.java:31 | a new configuration is empty |
| JmxDumpers.JmxDumpersConfig.Add | src/main/java/io/confluent/castle/jmx/JmxDumpersConfig.java:33-36 | the map that `Map` exposes now maps the stored key to the value; every other key is unchanged; the map grows by at most one entry |
| JmxDumpers.LastAddWins | src/main/java/io/confluent/castle/jmx/JmxDumpersConfig.java:35 | two consecutive `Add`s under the same stored key leave the map that the second alone would, holding the last value |
| GraphCsv.Kept | bin/graph_csv.py:69-74 | the kept positions of a row are below its length and all appear in needed_rows |
| GraphCsv.KeptPrefix | bin/graph_csv.py:69-74 | for increasing needed_rows, the positions kept from a row of length m are exactly the prefix of needed_rows below m |
| GraphCsv.KeptAll | bin/graph_csv.py:42-45 | a row longer than every needed position keeps all of needed_rows |
| GraphCsv.CsvFile.constructor | bin/graph_csv.py:33-35 | a new file has its base name and nothing else set |
| GraphCsv.CsvFile.SetUpTitleRow | bin/graph_csv.py:52-66 | without a filter, the whole header and 0..len-1 are kept; with one, column 0 comes first and any other column is kept if and only if its header is a wanted name; positions increase and title_row[k] == header[needed_rows[k]]; an empty header under a filter fails |
| GraphCsv.CsvFile.FilterRow | bin/graph_csv.py:69-74 | the row's cells at the kept positions, in order, never longer than the row |
| GraphCsv.CsvFile.Init | bin/graph_csv.py:33-50 | an empty header fails (IndexError under a filter, no columns without); the length mismatch fails if and only if the first row does not reach every kept position, which needs a row shorter than the header; a first row at least as long as the header passes; the stored first data row is that row's kept cells; the kept positions increase, start at 0 and, under a filter, include any other position exactly when its header names a wanted column, while without a filter the title row is the header; each column reads its kept position and is labelled `<k>.<basename>.<title>`; without a filter column k reads position k |
| GraphCsv.ColumnsFromInRange | bin/graph_csv.py:48-50 | the column loop as written succeeds only if every value it meets is a valid position |
| GraphCsv.ColumnsAsWrittenNeedsNoGap | bin/graph_csv.py:48-50 | hence it succeeds only if needed_rows is 0, 1, 2, … |
| GraphCsv.ColumnsFromOutOfRange | bin/graph_csv.py:48-50 | a value past the end of needed_rows makes the loop as written fail |
| GraphCsv.ColumnsAsWrittenGapFails | bin/graph_csv.py:48-50 | the contrapositive of `ColumnsAsWrittenNeedsNoGap`, with the failing position named: as soon as one kept position differs from its index, the loop as written fails |
| GraphCsv.FilterGapBreaksColumns | bin/graph_csv.py:48-50 | header `time,a,b` filtered to `b` makes the loop as written fail |
| GraphCsv.ColumnsAsWrittenWithoutFilter | bin/graph_csv.py:47-50 | without a filter, the loop as written yields the same columns as `CsvFile.Init` |
| ClusterSpecs.ExpandNodes | src/main/java/io/confluent/castle/cluster/CastleClusterSpec.java:50-58 | the node names are exactly the union of the pattern expansions, and each maps to the spec of a pattern that denotes it |
| ClusterSpecs.CastleClusterSpec.constructor | src/main/java/io/confluent/castle/cluster/CastleClusterSpec.java:42-63 | a missing conf becomes the default one; missing nodes become no nodes, and given nodes are expanded as `ExpandNodes` states; missing roles become no roles, and given roles are kept |
| ClusterSpecs.MissingRoleIndex | src/main/java/io/confluent/castle/cluster/CastleClusterSpec.java:92-98 | the first role name that names no role, or the list's length when every name does |
| ClusterSpecs.NodeRoles | src/main/java/io/confluent/castle/cluster/CastleClusterSpec.java:90-104 | succeeds if and only if every role name of the node names a role, returning `RoleMap`; otherwise the error names the node and its first missing role and lists its role names |
| ClusterSpecs.CastleClusterSpec.NodesToRoles | src/main/java/io/confluent/castle/cluster/CastleClusterSpec.java:85-107 | succeeds if and only if every node's role names all name roles; then it has one entry per node, each that node's `RoleMap`; otherwise the error is that of the first node in iteration order that names a missing role |
| ClusterSpecs.RoleMapClasses | src/main/java/io/confluent/castle/cluster/CastleClusterSpec.java:92-103 | a node's role map is keyed by exactly the classes of its named roles, so it holds one role per class |
| ClusterSpecs.RoleMapSize | src/main/java/io/confluent/castle/cluster/CastleClusterSpec.java:92-103 | a node's role map never has more entries than it has role names |
| ClusterSpecs.RoleMapLastWins | src/main/java/io/confluent/castle/cluster/CastleClusterSpec.java:99-103 | the role held for a class is the last named role of that class, merged with the node's patch for that name |

## Left out

- Concurrency: the scheduler's thread pool, the `await` timeouts, the test's
  CyclicBarrier rendezvous and its concurrent-access checker are not
  modelled.  The model runs one action at a time in one linear order.
  `initialDelay` is stored but no timing is modelled.
- Scenarios.RunActions: the three testActions meeting at a barrier is not
  modelled; the method shows each runs once and nothing is stuck.
- The remote effects of every `call` are emitted as steps, not performed:
  commands, rsync, killing processes, and brokerStart's start-up wait.  Whether
  the node can log in is a boolean parameter.  schemaRegistryStatus's `call`
  only reports a process status through the shutdown manager, and is not
  modelled.
- Failure of a `call` is not modelled.  Every step is taken to succeed:
  the path validations, each remote command, each rsync and each process
  kill.  In the source, a failed step throws, the action issues no further
  steps (sourceSetup stops after a failed validation, for example).  The
  scheduler's design then records the failure, skips every action that
  depends on the failed one, and reports the failure to the caller on close.
  The run loop of the model never marks an action as failed or skipped, and
  reports no failure to the caller.
- brokerStart's `call` sequence is not modelled, only its helpers:
  - writing and deleting the temporary files;
  - killing the old broker and syncing the files;
  - waiting for the process.
- brokerStart's log4j file outside the appender blocks is not modelled: the
  root logger and per-logger lines, and the blank lines.  Line terminators
  are left out of all file lines.
- The effective broker configuration is a parameter, given as entries in
  iteration order.  Merging the role's conf over the defaults and expanding
  dynamic variables are not part of this model.  The ZooKeeper connect string
  and each broker's internal DNS name (`dnsOf`) are parameters too.
- brokerStatus's declaration is not part of this model.
  `BrokerRoleActions.CreateActions` takes it as a parameter.  BrokerStopAction
  takes the role but does not use it, so `BrokerStop` has no role parameter.
- HashMap iteration order is a parameter wherever the source iterates a map:
  - the broker-id map;
  - the node patterns;
  - the nodes in `nodesToRoles`.

  The model does not say which pattern's spec wins when two patterns expand
  to the same node name.
- ClusterSpecs.CastleClusterSpec.NodesToRoles: the result is a map, so the
  sorted key order of the returned tree map is not modelled.
- The JSON side of the cluster specification is not modelled:
  - range-pattern expansion is the parameter `expand`;
  - a role merged with its node patch is the parameter `merge`;
  - the JSON deep copy of a node specification is the identity;
  - the role's class is a string field standing in for the Java class.
- The default cluster configuration is the parameter `defaultConf`.
- JmxDumpers.JmxDumpersConfig.Map: the configuration's map is a value here, so
  aliasing of the returned `HashMap` with the field is not modelled.
- The cluster-file writing hook (`CastleWriteClusterFileHook.java`) only
  writes a JSON file and is not part of this model.
- Type names and paths of classes outside this model are constants without a
  value:
  - the zooKeeperStart, collectdStart, schemaRegistryStart, Trogdor,
    jmxDumper, linuxSetup and brokerStatus types;
  - the ActionPaths directories;
  - the schema registry class name.
- graph_csv.py: the following are not modelled:
  - reading the file, with rows given already split into cells;
  - a file with fewer than two lines (Python's StopIteration);
  - the base name of the path, which is given directly;
  - parsing the first time stamp as a float;
  - the derivative and time-shift arithmetic, argument parsing and plotting.

  The RuntimeError texts are reduced to the cases of `CsvError`.

## Findings

| source | as written | input that shows it | evidently intended | confidence | as-written member | corrected member |
|---|---|---|---|---|---|---|
| bin/graph_csv.py:48-50 | `for i in self.needed_rows` walks the values of needed_rows and uses each one as an index into needed_rows and title_row | header `time,a,b` with column filter `b`: needed_rows is `[0, 2]`, and `needed_rows[2]` raises IndexError | walk the positions `0..len(needed_rows)-1`, so that column k reads needed_rows[k] and is labelled with title_row[k] | high, not executed | GraphCsv.FilterGapBreaksColumns | GraphCsv.CsvFile.Init |
