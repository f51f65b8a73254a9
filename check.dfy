/** `CheckTopic` (pkg/check/check.go:25-234): checks one declared topic
    configuration against the cluster and reports each check in order.

    The admin client, the config validator, the consistency checker and the
    live-metadata helpers are not part of this model; their answers for the run
    are given as a `Collaborators` value.
 */
module Check {
  import opened Wrappers
  import opened KeyOrder
  import opened Report

  /** `admin.RetentionKey`. */
  const RetentionKey: string := "retention.ms"

  const MillisPerMinute: int := 60000

  const Int64Min: int := -0x8000_0000_0000_0000
  const Int64Max: int := 0x7fff_ffff_ffff_ffff
  const Int64Span: int := 0x1_0000_0000_0000_0000

  /** A declared setting value: an integer, or any other YAML value by its text. */
  datatype SettingValue = IntSetting(n: int) | TextSetting(text: string)

  type Settings = map<string, SettingValue>

  /** The parts of `config.TopicConfig` that `CheckTopic` reads itself. */
  datatype TopicConfig = TopicConfig(
    name: string,
    partitions: int,
    replicationFactor: int,
    retentionMinutes: int,
    settings: Settings)

  /** `CheckConfig` without the admin client and the cluster config, which
      only the collaborators use. */
  datatype CheckConfig = CheckConfig(
    topicConfig: TopicConfig,
    checkLeaders: bool,
    numRacks: int,
    validateOnly: bool)

  /** `GetBrokers`: the brokers (only their number matters) or an error. */
  datatype BrokersReply = Brokers(count: nat) | BrokersFailed(err: Error)

  /** The error half of `GetTopic`'s reply. */
  datatype LookupStatus = Found | DoesNotExist | LookupFailed(err: Error)

  /** What `CheckTopic` uses of the `TopicInfo` that `GetTopic` returns: its
      config map, `len(Partitions)`, `IsThrottled()`, and the lengths of
      `OutOfSyncPartitions(nil)` and `WrongLeaderPartitions(nil)`. */
  datatype TopicInfo = TopicInfo(
    config: map<string, string>,
    partitionCount: nat,
    throttled: bool,
    outOfSyncCount: nat,
    wrongLeaderCount: nat)

  /** `ConfigMapDiffs`: keys whose values differ, keys missing from the live
      config, or an error. */
  datatype DiffReply = Diffs(diffKeys: seq<string>, missingKeys: seq<string>) | DiffFailed(err: Error)

  /** The answers of everything `CheckTopic` calls but does not define. Like
      Go's `GetTopic`, the lookup gives a `TopicInfo` together with its
      status; the info is whatever the lookup returned, whatever the status. */
  datatype Collaborators = Collaborators(
    brokers: BrokersReply,
    validation: Option<Error>,
    consistency: Option<Error>,
    topicInfo: TopicInfo,
    lookup: LookupStatus,
    configMapDiffs: (Settings, map<string, string>) -> DiffReply)

  /** Go's 64-bit `int` arithmetic: the value in range that `x` wraps to. */
  function WrapInt64(x: int): (r: int)
    ensures Int64Min <= r <= Int64Max
    ensures (x - r) % Int64Span == 0
    ensures Int64Min <= x <= Int64Max ==> r == x
  {
    var m := x % Int64Span;
    if m > Int64Max then m - Int64Span else m
  }

  /** `RetentionMinutes * 60000` as Go computes it. */
  function RetentionMillis(minutes: int): (ms: int)
    ensures 0 < minutes <= Int64Max / MillisPerMinute ==> ms == minutes * MillisPerMinute && ms > 0
  {
    WrapInt64(minutes * MillisPerMinute)
  }

  /** The settings `CheckTopic` compares with the live config: the declared
      settings, with the retention in milliseconds when one is declared. */
  function EffectiveSettings(topic: TopicConfig): (s: Settings)
    ensures topic.retentionMinutes > 0 ==>
      RetentionKey in s && s[RetentionKey] == IntSetting(RetentionMillis(topic.retentionMinutes))
    ensures topic.retentionMinutes <= 0 ==> s == topic.settings
    ensures forall k :: k != RetentionKey ==> (k in s <==> k in topic.settings)
    ensures forall k :: k in s && k != RetentionKey ==> s[k] == topic.settings[k]
  {
    if topic.retentionMinutes > 0 then
      topic.settings[RetentionKey := IntSetting(RetentionMillis(topic.retentionMinutes))]
    else
      topic.settings
  }

  /** The outcome of `ConfigCorrect` given the validator's answer. */
  function ConfigCorrectResult(validation: Option<Error>): (r: CheckResult)
    ensures r.name == ConfigCorrect && Finalized(r)
    ensures r.passed <==> validation.None?
    ensures validation.Some? ==> r.message == ValidationError(validation.value)
  {
    match validation
    case None => CheckResult(ConfigCorrect, true, NoMessage)
    case Some(e) => CheckResult(ConfigCorrect, false, ValidationError(e))
  }

  /** The outcome of `ConfigsConsistent` given the consistency checker's answer. */
  function ConfigsConsistentResult(consistency: Option<Error>): (r: CheckResult)
    ensures r.name == ConfigsConsistent && Finalized(r)
    ensures r.passed <==> consistency.None?
    ensures consistency.Some? ==> r.message == ConsistencyError(consistency.value)
  {
    match consistency
    case None => CheckResult(ConfigsConsistent, true, NoMessage)
    case Some(e) => CheckResult(ConfigsConsistent, false, ConsistencyError(e))
  }

  /** The outcome of `ConfigSettingsCorrect`: it passes when no key differs
      and none is missing; otherwise it lists every such key, sorted. */
  function SettingsResult(diffKeys: seq<string>, missingKeys: seq<string>): (r: CheckResult)
    ensures r.name == ConfigSettingsCorrect && Finalized(r)
    ensures r.passed <==> |diffKeys| == 0 && |missingKeys| == 0
    ensures !r.passed ==>
      && r.message.KeysDiffer?
      && r.message.keyCount == |diffKeys| + |missingKeys|
      && Sorted(r.message.keys)
      && multiset(r.message.keys) == multiset(diffKeys) + multiset(missingKeys)
  {
    if |diffKeys| == 0 && |missingKeys| == 0 then
      CheckResult(ConfigSettingsCorrect, true, NoMessage)
    else
      var combined := Sort(diffKeys + missingKeys);
      CheckResult(ConfigSettingsCorrect, false, KeysDiffer(|combined|, combined))
  }

  /** The outcome of `ReplicationFactorCorrect` (Go's `%` truncates, but
      only its zero test matters, and that agrees with Dafny's). */
  function ReplicationResult(replicationFactor: int, brokers: nat): (r: CheckResult)
    requires brokers > 0
    ensures r.name == ReplicationFactorCorrect && Finalized(r)
    ensures !r.passed ==> r.message == ReplicationNotMultiple(replicationFactor, brokers)
  {
    if replicationFactor % brokers == 0 then
      CheckResult(ReplicationFactorCorrect, true, NoMessage)
    else
      CheckResult(ReplicationFactorCorrect, false, ReplicationNotMultiple(replicationFactor, brokers))
  }

  /** The outcome of `PartitionCountCorrect`. */
  function PartitionResult(partitions: int, brokers: nat): (r: CheckResult)
    requires brokers > 0
    ensures r.name == PartitionCountCorrect && Finalized(r)
    ensures !r.passed ==> r.message == PartitionsNotMultiple(partitions, brokers)
  {
    if partitions % brokers == 0 || partitions == 1 then
      CheckResult(PartitionCountCorrect, true, NoMessage)
    else
      CheckResult(PartitionCountCorrect, false, PartitionsNotMultiple(partitions, brokers))
  }

  /** The outcome of `ThrottlesClear`. */
  function ThrottleResult(throttled: bool): (r: CheckResult)
    ensures r.name == ThrottlesClear && Finalized(r)
    ensures r.passed <==> !throttled
  {
    if !throttled then CheckResult(ThrottlesClear, true, NoMessage)
    else CheckResult(ThrottlesClear, false, ExistingThrottles)
  }

  /** The outcome of `ReplicasInSync`. */
  function InSyncResult(outOfSync: nat, total: nat): (r: CheckResult)
    ensures r.name == ReplicasInSync && Finalized(r)
    ensures r.passed <==> outOfSync == 0
    ensures !r.passed ==> r.message == OutOfSyncReplicas(outOfSync, total)
  {
    if outOfSync == 0 then CheckResult(ReplicasInSync, true, NoMessage)
    else CheckResult(ReplicasInSync, false, OutOfSyncReplicas(outOfSync, total))
  }

  /** The outcome of `LeadersCorrect`. */
  function LeadersResult(wrongLeaders: nat, total: nat): (r: CheckResult)
    ensures r.name == LeadersCorrect && Finalized(r)
    ensures r.passed <==> wrongLeaders == 0
    ensures !r.passed ==> r.message == WrongLeaders(wrongLeaders, total)
  {
    if wrongLeaders == 0 then CheckResult(LeadersCorrect, true, NoMessage)
    else CheckResult(LeadersCorrect, false, WrongLeaders(wrongLeaders, total))
  }

  /** The checks that follow the settings check: replication factor,
      partitions, throttles, in-sync replicas, and leaders when asked for. */
  function LaterChecks(config: CheckConfig, brokers: nat, info: TopicInfo): (r: seq<CheckResult>)
    requires brokers > 0
    ensures |r| == if config.checkLeaders then 5 else 4
    ensures forall i :: 0 <= i < |r| ==> Finalized(r[i])
    ensures && r[0].name == ReplicationFactorCorrect && r[1].name == PartitionCountCorrect
            && r[2].name == ThrottlesClear && r[3].name == ReplicasInSync
    ensures config.checkLeaders ==> r[4].name == LeadersCorrect
  {
    [ ReplicationResult(config.topicConfig.replicationFactor, brokers),
      PartitionResult(config.topicConfig.partitions, brokers),
      ThrottleResult(info.throttled),
      InSyncResult(info.outOfSyncCount, info.partitionCount) ]
    + (if config.checkLeaders then [LeadersResult(info.wrongLeaderCount, info.partitionCount)] else [])
  }

  /** The settings diff a run asks for, against the live config it fetched. */
  function SettingsDiff(config: CheckConfig, c: Collaborators): DiffReply {
    c.configMapDiffs(EffectiveSettings(config.topicConfig), c.topicInfo.config)
  }

  /** The run gets as far as `% len(brokers)` (pkg/check/check.go:142). */
  predicate ReachesDivision(config: CheckConfig, c: Collaborators) {
    c.brokers.Brokers? && c.validation.None? && c.consistency.None? && !config.validateOnly
    && (c.lookup.DoesNotExist? || SettingsDiff(config, c).Diffs?)
  }

  /** What Go needs of the inputs not to panic: brokers to divide by. */
  predicate Admissible(config: CheckConfig, c: Collaborators) {
    ReachesDivision(config, c) ==> c.brokers.count > 0
  }

  /** The report and the error a run returns. */
  datatype RunResult = RunResult(results: seq<CheckResult>, err: Option<Error>)

  /** What a run adds after the two static checks passed, and its error:
      the settings check unless the topic is missing, then the later checks. */
  function LiveRun(config: CheckConfig, c: Collaborators, brokers: nat): (r: RunResult)
    requires c.lookup.DoesNotExist? || SettingsDiff(config, c).Diffs? ==> brokers > 0
    ensures r.err.Some? <==> !c.lookup.DoesNotExist? && SettingsDiff(config, c).DiffFailed?
    ensures r.err.Some? ==> r.results == [Pending(ConfigSettingsCorrect)]
    ensures r.err.None? ==> |r.results| == (if c.lookup.DoesNotExist? then 4 else 5) + (if config.checkLeaders then 1 else 0)
    ensures |r.results| > 0 && (r.results[0].name == ConfigSettingsCorrect <==> !c.lookup.DoesNotExist?)
  {
    if c.lookup.DoesNotExist? then
      RunResult(LaterChecks(config, brokers, c.topicInfo), None)
    else
      match SettingsDiff(config, c)
      case DiffFailed(e) => RunResult([Pending(ConfigSettingsCorrect)], Some(e))
      case Diffs(d, m) => RunResult([SettingsResult(d, m)] + LaterChecks(config, brokers, c.topicInfo), None)
  }

  /** What `CheckTopic` returns, stage by stage. */
  function Run(config: CheckConfig, c: Collaborators): (r: RunResult)
    requires Admissible(config, c)
    ensures r.results == [] <==> c.brokers.BrokersFailed?
    ensures r.err.Some? <==> (
      || c.brokers.BrokersFailed?
      || (&& c.brokers.Brokers? && c.validation.None? && c.consistency.None? && !config.validateOnly
          && !c.lookup.DoesNotExist? && SettingsDiff(config, c).DiffFailed?))
    ensures |r.results| <= 8
    ensures r.results != [] ==> r.results[0].name == ConfigCorrect
  {
    match c.brokers
    case BrokersFailed(e) => RunResult([], Some(e))
    case Brokers(n) =>
      var configCorrect := ConfigCorrectResult(c.validation);
      var consistent := ConfigsConsistentResult(c.consistency);
      if !configCorrect.passed then RunResult([configCorrect], None)
      else if !consistent.passed || config.validateOnly then RunResult([configCorrect, consistent], None)
      else
        var live := LiveRun(config, c, n);
        RunResult([configCorrect, consistent] + live.results, live.err)
  }

  /** The two loops that build `combinedKeys` (pkg/check/check.go:113-119). */
  method CombineKeys(diffKeys: seq<string>, missingKeys: seq<string>) returns (combinedKeys: seq<string>)
    ensures combinedKeys == diffKeys + missingKeys
  {
    combinedKeys := [];
    for i := 0 to |diffKeys|
      invariant combinedKeys == diffKeys[..i]
    {
      combinedKeys := combinedKeys + [diffKeys[i]];
    }
    for i := 0 to |missingKeys|
      invariant combinedKeys == diffKeys + missingKeys[..i]
    {
      combinedKeys := combinedKeys + [missingKeys[i]];
    }
  }

  /** The settings step (pkg/check/check.go:93-133), for a topic that was
      not reported missing: the pending entry stays when the diff fails. */
  method CheckSettings(results: TopicCheckResults, config: CheckConfig, c: Collaborators)
    returns (err: Option<Error>)
    modifies results
    ensures SettingsDiff(config, c).DiffFailed? ==>
      results.results == old(results.results) + [Pending(ConfigSettingsCorrect)]
      && err == Some(SettingsDiff(config, c).err)
    ensures SettingsDiff(config, c).Diffs? ==>
      results.results == old(results.results)
        + [SettingsResult(SettingsDiff(config, c).diffKeys, SettingsDiff(config, c).missingKeys)]
      && err == None
  {
    results.AppendResult(Pending(ConfigSettingsCorrect));

    var settings := config.topicConfig.settings;
    if config.topicConfig.retentionMinutes > 0 {
      settings := settings[RetentionKey := IntSetting(RetentionMillis(config.topicConfig.retentionMinutes))];
    }

    assert settings == EffectiveSettings(config.topicConfig);
    var diff := c.configMapDiffs(settings, c.topicInfo.config);
    assert diff == SettingsDiff(config, c);
    if diff.DiffFailed? {
      return Some(diff.err);
    }

    if |diff.diffKeys| == 0 && |diff.missingKeys| == 0 {
      results.UpdateLastResult(true, NoMessage);
    } else {
      var combinedKeys := CombineKeys(diff.diffKeys, diff.missingKeys);
      combinedKeys := SortKeys(combinedKeys);
      results.UpdateLastResult(false, KeysDiffer(|combinedKeys|, combinedKeys));
    }
    assert results.results == old(results.results) + [SettingsResult(diff.diffKeys, diff.missingKeys)];
    return None;
  }

  /** `ReplicationFactorCorrect` (pkg/check/check.go:135-153). */
  method CheckReplicationFactor(results: TopicCheckResults, replicationFactor: int, brokerCount: nat)
    requires brokerCount > 0
    modifies results
    ensures results.results == old(results.results) + [ReplicationResult(replicationFactor, brokerCount)]
  {
    results.AppendResult(Pending(ReplicationFactorCorrect));
    if replicationFactor % brokerCount == 0 {
      results.UpdateLastResult(true, NoMessage);
    } else {
      results.UpdateLastResult(false, ReplicationNotMultiple(replicationFactor, brokerCount));
    }
  }

  /** `PartitionCountCorrect` (pkg/check/check.go:155-172). */
  method CheckPartitionCount(results: TopicCheckResults, partitions: int, brokerCount: nat)
    requires brokerCount > 0
    modifies results
    ensures results.results == old(results.results) + [PartitionResult(partitions, brokerCount)]
  {
    results.AppendResult(Pending(PartitionCountCorrect));
    if partitions % brokerCount == 0 || partitions == 1 {
      results.UpdateLastResult(true, NoMessage);
    } else {
      results.UpdateLastResult(false, PartitionsNotMultiple(partitions, brokerCount));
    }
  }

  /** `ThrottlesClear` (pkg/check/check.go:174-187). */
  method CheckThrottles(results: TopicCheckResults, topicInfo: TopicInfo)
    modifies results
    ensures results.results == old(results.results) + [ThrottleResult(topicInfo.throttled)]
  {
    results.AppendResult(Pending(ThrottlesClear));
    if !topicInfo.throttled {
      results.UpdateLastResult(true, NoMessage);
    } else {
      results.UpdateLastResult(false, ExistingThrottles);
    }
  }

  /** `ReplicasInSync` (pkg/check/check.go:189-208). */
  method CheckReplicasInSync(results: TopicCheckResults, topicInfo: TopicInfo)
    modifies results
    ensures results.results == old(results.results)
      + [InSyncResult(topicInfo.outOfSyncCount, topicInfo.partitionCount)]
  {
    results.AppendResult(Pending(ReplicasInSync));
    if topicInfo.outOfSyncCount == 0 {
      results.UpdateLastResult(true, NoMessage);
    } else {
      results.UpdateLastResult(false, OutOfSyncReplicas(topicInfo.outOfSyncCount, topicInfo.partitionCount));
    }
  }

  /** `LeadersCorrect` (pkg/check/check.go:210-231), run only when asked for. */
  method CheckLeaders(results: TopicCheckResults, checkLeaders: bool, topicInfo: TopicInfo)
    modifies results
    ensures results.results == old(results.results)
      + (if checkLeaders then [LeadersResult(topicInfo.wrongLeaderCount, topicInfo.partitionCount)] else [])
  {
    if checkLeaders {
      results.AppendResult(Pending(LeadersCorrect));
      if topicInfo.wrongLeaderCount == 0 {
        results.UpdateLastResult(true, NoMessage);
      } else {
        results.UpdateLastResult(false, WrongLeaders(topicInfo.wrongLeaderCount, topicInfo.partitionCount));
      }
    }
  }

  /** `ConfigCorrect` (pkg/check/check.go:32-47); `ok` says whether the run goes on. */
  method CheckConfigCorrect(results: TopicCheckResults, validation: Option<Error>) returns (ok: bool)
    modifies results
    ensures results.results == old(results.results) + [ConfigCorrectResult(validation)]
    ensures ok <==> validation.None?
  {
    results.AppendResult(Pending(ConfigCorrect));
    if validation.None? {
      results.UpdateLastResult(true, NoMessage);
    } else {
      results.UpdateLastResult(false, ValidationError(validation.value));
      return false;
    }
    return true;
  }

  /** `ConfigsConsistent` (pkg/check/check.go:49-64); `ok` says whether the run goes on. */
  method CheckConfigsConsistent(results: TopicCheckResults, consistency: Option<Error>) returns (ok: bool)
    modifies results
    ensures results.results == old(results.results) + [ConfigsConsistentResult(consistency)]
    ensures ok <==> consistency.None?
  {
    results.AppendResult(Pending(ConfigsConsistent));
    if consistency.None? {
      results.UpdateLastResult(true, NoMessage);
    } else {
      results.UpdateLastResult(false, ConsistencyError(consistency.value));
      return false;
    }
    return true;
  }

  /** The steps after the static checks (pkg/check/check.go:76-233): the
      topic lookup, the settings check unless the topic is missing, and the
      later checks. */
  method CheckLive(results: TopicCheckResults, config: CheckConfig, c: Collaborators, brokerCount: nat)
    returns (err: Option<Error>)
    requires c.lookup.DoesNotExist? || SettingsDiff(config, c).Diffs? ==> brokerCount > 0
    modifies results
    ensures results.results == old(results.results) + LiveRun(config, c, brokerCount).results
    ensures err == LiveRun(config, c, brokerCount).err
  {
    // Any other lookup error is dropped: the run goes on with the info returned.
    var topicDoesNotExist := false;
    if c.lookup.DoesNotExist? {
      topicDoesNotExist := true;
    }

    if !topicDoesNotExist {
      err := CheckSettings(results, config, c);
      if err.Some? {
        return err;
      }
    }

    CheckReplicationFactor(results, config.topicConfig.replicationFactor, brokerCount);
    CheckPartitionCount(results, config.topicConfig.partitions, brokerCount);
    CheckThrottles(results, c.topicInfo);
    CheckReplicasInSync(results, c.topicInfo);
    CheckLeaders(results, config.checkLeaders, c.topicInfo);
    return None;
  }

  /** `CheckTopic`: one pass over the checks, appending a pending entry for
      each and then deciding it, with the early returns of the source. */
  method CheckTopic(config: CheckConfig, c: Collaborators) returns (results: TopicCheckResults, err: Option<Error>)
    requires Admissible(config, c)
    ensures fresh(results)
    ensures results.results == Run(config, c).results
    ensures err == Run(config, c).err
  {
    results := new TopicCheckResults();
    if c.brokers.BrokersFailed? {
      return results, Some(c.brokers.err);
    }
    var brokerCount := c.brokers.count;

    var ok := CheckConfigCorrect(results, c.validation);
    if !ok {
      return results, None;
    }

    ok := CheckConfigsConsistent(results, c.consistency);
    if !ok || config.validateOnly {
      return results, None;
    }

    err := CheckLive(results, config, c, brokerCount);
  }
}
