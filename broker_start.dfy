/** What brokerStart computes before it touches the node: the broker id of
    the node, the default broker configuration, the remote command lines,
    and the lines of the broker properties file and of the log4j appenders.
    File lines are modelled without their line terminators. */
module BrokerStartAction {
  import opened Wrappers
  import opened Strings
  import opened BrokerRoles
  import ActionPaths

  /** The broker id of `nodeName`: the loop over the entries of the cluster's
      broker-id to node-name map, in the iteration order `order` (which lists
      every key of the map), returning the first key whose node is this one. */
  method GetBrokerId(brokers: map<int, string>, order: seq<int>, nodeName: string) returns (r: Result<int, string>)
    requires forall k :: k in brokers ==> k in order
    requires forall i :: 0 <= i < |order| ==> order[i] in brokers
    ensures r.Success? ==> r.value in brokers && brokers[r.value] == nodeName
    ensures r.Failure? <==> nodeName !in brokers.Values
    ensures r.Failure? ==> r.error == "Node " + nodeName + " does not have the broker role."
    ensures r.Success? && (forall a, b :: a in brokers && b in brokers && brokers[a] == brokers[b] ==> a == b) ==>
              forall k :: k in brokers && brokers[k] == nodeName ==> k == r.value
  {
    var i := 0;
    while i < |order|
      invariant 0 <= i <= |order|
      invariant forall j :: 0 <= j < i ==> brokers[order[j]] != nodeName
    {
      if brokers[order[i]] == nodeName {
        return Success(order[i]);
      }
      i := i + 1;
    }
    forall k | k in brokers
      ensures brokers[k] != nodeName
    {
      var j :| 0 <= j < |order| && order[j] == k;
    }
    return Failure("Node " + nodeName + " does not have the broker role.");
  }

  /** The broker settings brokerStart supplies when the role does not: the
      ten puts of the source, one of them repeated, leave nine keys. */
  method GetDefaultConf() returns (conf: map<string, string>)
    ensures |conf| == 9
    ensures conf == map[
      "num.network.threads" := "3",
      "num.io.threads" := "8",
      "socket.send.buffer.bytes" := "102400",
      "socket.receive.buffer.bytes" := "102400",
      "socket.request.max.bytes" := "104857600",
      "num.partitions" := "3",
      "num.recovery.threads.per.data.dir" := "1",
      "log.retention.bytes" := "104857600",
      "zookeeper.connection.timeout.ms" := "6000"]
  {
    conf := map[];
    conf := conf["num.network.threads" := "3"];
    conf := conf["num.io.threads" := "8"];
    conf := conf["socket.send.buffer.bytes" := "102400"];
    conf := conf["socket.receive.buffer.bytes" := "102400"];
    conf := conf["socket.receive.buffer.bytes" := "102400"];
    conf := conf["socket.request.max.bytes" := "104857600"];
    conf := conf["num.partitions" := "3"];
    conf := conf["num.recovery.threads.per.data.dir" := "1"];
    conf := conf["log.retention.bytes" := "104857600"];
    conf := conf["zookeeper.connection.timeout.ms" := "6000"];
  }

  /** The directories brokerStart recreates before each start. */
  function BrokerDirectories(): seq<string>
  {
    [ActionPaths.KafkaOplogs, ActionPaths.KafkaLogs, ActionPaths.KafkaConf]
  }

  /** The setup command: remove, recreate and hand to the login user the
      same three directories (the last step also covers the Kafka root),
      joined by `&&`. */
  function SetupPathsCommandLine(): (args: seq<string>)
    ensures |args| == 23
    ensures args[..5] == ["-n", "--", "sudo", "rm", "-rf"]
    ensures args[8..12] == ["&&", "sudo", "mkdir", "-p"]
    ensures args[15..20] == ["&&", "sudo", "chown", "`whoami`", ActionPaths.KafkaRoot]
    ensures args[5..8] == args[12..15] == args[20..] == BrokerDirectories()
  {
    ["-n", "--", "sudo", "rm", "-rf"] + BrokerDirectories()
    + ["&&", "sudo", "mkdir", "-p"] + BrokerDirectories()
    + ["&&", "sudo", "chown", "`whoami`", ActionPaths.KafkaRoot] + BrokerDirectories()
  }

  /** The command that starts the broker in the background. */
  function RunDaemonCommandLine(role: BrokerRole): (args: seq<string>)
    ensures |args| == 14 && args[..4] == ["-n", "--", "nohup", "env"]
    ensures args[4] == "JMX_PORT=9192"
    ensures args[8] == ActionPaths.KafkaStartScript && args[9] == ActionPaths.KafkaBrokerProperties
    ensures args[10..] == [">" + ActionPaths.KafkaLogs + "/stdout-stderr.txt", "2>&1", "</dev/null", "&"]
  {
    ["-n", "--", "nohup", "env",
     "JMX_PORT=9192",
     "KAFKA_JVM_PERFORMANCE_OPTS='" + role.jvmOptions + "'",
     "KAFKA_LOG4J_OPTS='-Dlog4j.configuration=file:" + ActionPaths.KafkaBrokerLog4j + "' ",
     "LOG_DIR=\"" + ActionPaths.KafkaLogs + "\"",
     ActionPaths.KafkaStartScript, ActionPaths.KafkaBrokerProperties,
     ">" + ActionPaths.KafkaLogs + "/stdout-stderr.txt", "2>&1", "</dev/null", "&"]
  }

  /** The JVM options reach the broker unchanged: the single-quoted value of
      the performance-options argument is exactly the role's options. */
  lemma RunDaemonQuotesJvmOptions(role: BrokerRole)
    ensures var arg := RunDaemonCommandLine(role)[5];
            && |arg| == 29 + |role.jvmOptions|
            && arg[..28] == "KAFKA_JVM_PERFORMANCE_OPTS='"
            && arg[28..|arg| - 1] == role.jvmOptions
            && arg[|arg| - 1] == '\''
  {
  }

  /** One `key=value` line of a properties file. */
  function PropertyLine(entry: (string, string)): string
  {
    entry.0 + "=" + entry.1
  }

  /** A properties line read back: the key before the first '=', the value after it. */
  function ParsePropertyLine(line: string): (string, string)
  {
    CutAtFirst(line, '=')
  }

  function PropertyLines(entries: seq<(string, string)>): (lines: seq<string>)
    ensures |lines| == |entries|
    ensures forall i :: 0 <= i < |entries| ==> lines[i] == PropertyLine(entries[i])
  {
    seq(|entries|, i requires 0 <= i < |entries| => PropertyLine(entries[i]))
  }

  /** The entries of a broker properties file: six fixed settings (the id,
      the listener pair, the inter-broker listener, the data directory and
      the ZooKeeper connect string), then the effective configuration in its
      iteration order. */
  function BrokerConfigEntries(brokerId: int, externalAuth: string, zooKeeperConnect: string,
                               conf: seq<(string, string)>): (entries: seq<(string, string)>)
    ensures |entries| == 6 + |conf| && entries[6..] == conf
  {
    [("broker.id", IntToString(brokerId)),
     ("listeners", externalAuth + "://:" + PortText),
     ("advertised.listeners", externalAuth + "://:" + PortText),
     ("inter.broker.listener.name", externalAuth),
     ("log.dirs", ActionPaths.KafkaOplogs),
     ("zookeeper.connect", zooKeeperConnect)] + conf
  }

  /** The lines writeBrokerConfig writes. */
  function BrokerConfigLines(brokerId: int, externalAuth: string, zooKeeperConnect: string,
                             conf: seq<(string, string)>): (lines: seq<string>)
    ensures |lines| == 6 + |conf|
    ensures lines[0] == "broker.id=" + IntToString(brokerId)
    ensures lines[1] == "listeners=" + externalAuth + "://:" + PortText
    ensures lines[2] == "advertised.listeners=" + externalAuth + "://:" + PortText
    ensures lines[3] == "inter.broker.listener.name=" + externalAuth
    ensures lines[4] == "log.dirs=" + ActionPaths.KafkaOplogs
    ensures lines[5] == "zookeeper.connect=" + zooKeeperConnect
    ensures forall i :: 0 <= i < |conf| ==> lines[6 + i] == conf[i].0 + "=" + conf[i].1
  {
    var entries := BrokerConfigEntries(brokerId, externalAuth, zooKeeperConnect, conf);
    assert entries[..6] == [("broker.id", IntToString(brokerId)),
      ("listeners", externalAuth + "://:" + PortText),
      ("advertised.listeners", externalAuth + "://:" + PortText),
      ("inter.broker.listener.name", externalAuth),
      ("log.dirs", ActionPaths.KafkaOplogs),
      ("zookeeper.connect", zooKeeperConnect)];
    PropertyLines(entries)
  }

  /** Reading the broker properties back line by line gives the six fixed
      settings and then every configuration entry, key and value, provided
      no configuration key contains '='. */
  lemma BrokerConfigRoundTrip(brokerId: int, externalAuth: string, zooKeeperConnect: string,
                              conf: seq<(string, string)>, i: nat)
    requires forall j :: 0 <= j < |conf| ==> '=' !in conf[j].0
    requires i < 6 + |conf|
    ensures ParsePropertyLine(BrokerConfigLines(brokerId, externalAuth, zooKeeperConnect, conf)[i])
              == BrokerConfigEntries(brokerId, externalAuth, zooKeeperConnect, conf)[i]
  {
    var e := BrokerConfigEntries(brokerId, externalAuth, zooKeeperConnect, conf)[i];
    if i >= 6 {
      assert e == conf[i - 6];
    }
    assert '=' !in e.0;
    assert PropertyLine(e) == e.0 + ['='] + e.1;
    CutAtFirstJoined(e.0, e.1, '=');
  }

  /** The common start of every line of one appender's block. */
  function AppenderPrefix(appender: string): string
  {
    "log4j.appender." + appender
  }

  /** The five settings of one daily-rolling file appender. */
  function AppenderEntries(appender: string, logName: string): (entries: seq<(string, string)>)
  {
    var p := AppenderPrefix(appender);
    [(p, "org.apache.log4j.DailyRollingFileAppender"),
     (p + ".DatePattern", "'.'yyyy-MM-dd-HH"),
     (p + ".File", ActionPaths.KafkaLogs + "/" + logName),
     (p + ".layout", "org.apache.log4j.PatternLayout"),
     (p + ".layout.ConversionPattern", "[%d] %p %m (%c)%n")]
  }

  /** The lines writeDailyRollingFileAppender writes for one appender. */
  function AppenderLines(appender: string, logName: string): (lines: seq<string>)
    ensures |lines| == 5
  {
    PropertyLines(AppenderEntries(appender, logName))
  }

  /** Read back, each of the five lines of an appender block is a setting
      whose key starts with `log4j.appender.<name>`; the block's File
      setting sends the log to `logName` under the Kafka log directory.
      This holds whenever the appender name contains no '='. */
  lemma AppenderRoundTrip(appender: string, logName: string, i: nat)
    requires '=' !in appender && i < 5
    ensures ParsePropertyLine(AppenderLines(appender, logName)[i]) == AppenderEntries(appender, logName)[i]
    ensures var key := AppenderEntries(appender, logName)[i].0;
            |AppenderPrefix(appender)| <= |key| && key[..|AppenderPrefix(appender)|] == AppenderPrefix(appender)
    ensures AppenderEntries(appender, logName)[2] == (AppenderPrefix(appender) + ".File", ActionPaths.KafkaLogs + "/" + logName)
  {
    var p := AppenderPrefix(appender);
    var e := AppenderEntries(appender, logName)[i];
    var suffix := e.0[|p|..];
    assert e.0 == p + suffix;
    assert '=' !in "log4j.appender.";
    assert '=' !in suffix;
    NoCharInConcat("log4j.appender.", appender, '=');
    NoCharInConcat(p, suffix, '=');
    assert PropertyLine(e) == e.0 + ['='] + e.1;
    CutAtFirstJoined(e.0, e.1, '=');
  }

  lemma NoCharInConcat(a: string, b: string, c: char)
    requires c !in a && c !in b
    ensures c !in a + b
  {
    assert forall k :: 0 <= k < |a + b| ==> (a + b)[k] == if k < |a| then a[k] else b[k - |a|];
  }
}
