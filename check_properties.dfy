/** What a run of `CheckTopic` promises: where it stops early, which checks
    it skips, the order of the report, the divisibility rules, and that every
    decided entry explains itself exactly when it failed. */
module CheckProperties {
  import opened Wrappers
  import opened KeyOrder
  import opened Report
  import opened Check

  /** A failed broker query returns the empty report with that error. */
  lemma BrokerFailureReturnsEmptyReport(config: CheckConfig, c: Collaborators)
    requires c.brokers.BrokersFailed?
    ensures Admissible(config, c)
    ensures Run(config, c) == RunResult([], Some(c.brokers.err))
  {
  }

  /** An invalid declared config stops the run after one failed entry,
      without an error. */
  lemma ValidationFailureStops(config: CheckConfig, c: Collaborators)
    requires c.brokers.Brokers? && c.validation.Some?
    ensures Admissible(config, c)
    ensures Run(config, c).results == [CheckResult(ConfigCorrect, false, ValidationError(c.validation.value))]
    ensures Run(config, c).err == None
  {
  }

  /** A config inconsistent with the cluster config stops the run after two
      entries, the second failed, without an error. */
  lemma ConsistencyFailureStops(config: CheckConfig, c: Collaborators)
    requires c.brokers.Brokers? && c.validation.None? && c.consistency.Some?
    ensures Admissible(config, c)
    ensures Run(config, c).results == [
      CheckResult(ConfigCorrect, true, NoMessage),
      CheckResult(ConfigsConsistent, false, ConsistencyError(c.consistency.value))]
    ensures Run(config, c).err == None
  {
  }

  /** With `ValidateOnly`, a config that passes both static checks gives
      exactly those two passed entries. */
  lemma ValidateOnlyStops(config: CheckConfig, c: Collaborators)
    requires config.validateOnly
    requires c.brokers.Brokers? && c.validation.None? && c.consistency.None?
    ensures Admissible(config, c)
    ensures Run(config, c).results == [
      CheckResult(ConfigCorrect, true, NoMessage),
      CheckResult(ConfigsConsistent, true, NoMessage)]
    ensures Run(config, c).err == None
  {
  }

  /** With `ValidateOnly` the topic is never looked up: nothing the lookup or
      the settings diff could answer changes the run. */
  lemma ValidateOnlyNeverLooksUpTopic(
    config: CheckConfig, c: Collaborators,
    info: TopicInfo, lookup: LookupStatus, diffs: (Settings, map<string, string>) -> DiffReply)
    requires config.validateOnly
    ensures Admissible(config, c)
    ensures Admissible(config, c.(topicInfo := info, lookup := lookup, configMapDiffs := diffs))
    ensures Run(config, c) == Run(config, c.(topicInfo := info, lookup := lookup, configMapDiffs := diffs))
  {
  }

  /** The names of the checks after the settings step, in report order. */
  function LaterNames(checkLeaders: bool): seq<CheckName> {
    [ReplicationFactorCorrect, PartitionCountCorrect, ThrottlesClear, ReplicasInSync]
    + (if checkLeaders then [LeadersCorrect] else [])
  }

  lemma LaterChecksNames(config: CheckConfig, brokers: nat, info: TopicInfo)
    requires brokers > 0
    ensures Names(LaterChecks(config, brokers, info)) == LaterNames(config.checkLeaders)
  {
  }

  /** A topic that does not exist gets no `ConfigSettingsCorrect` entry; the
      other live checks are still appended, in order. */
  lemma MissingTopicSkipsSettings(config: CheckConfig, c: Collaborators)
    requires Admissible(config, c)
    requires c.brokers.Brokers? && c.validation.None? && c.consistency.None?
    requires !config.validateOnly && c.lookup.DoesNotExist?
    ensures Run(config, c).err == None
    ensures Names(Run(config, c).results) == [ConfigCorrect, ConfigsConsistent] + LaterNames(config.checkLeaders)
    ensures ConfigSettingsCorrect !in Names(Run(config, c).results)
  {
    LaterChecksNames(config, c.brokers.count, c.topicInfo);
    assert Names(Run(config, c).results)
      == [ConfigCorrect, ConfigsConsistent] + Names(LaterChecks(config, c.brokers.count, c.topicInfo));
  }

  /** A complete run on a topic that was not reported missing has seven
      entries, eight with `CheckLeaders`, in the order of the source, and its
      third entry is the settings verdict on the diff. */
  lemma CompleteRunOrder(config: CheckConfig, c: Collaborators)
    requires Admissible(config, c)
    requires c.brokers.Brokers? && c.validation.None? && c.consistency.None?
    requires !config.validateOnly && !c.lookup.DoesNotExist? && SettingsDiff(config, c).Diffs?
    ensures Run(config, c).err == None
    ensures Names(Run(config, c).results)
      == [ConfigCorrect, ConfigsConsistent, ConfigSettingsCorrect] + LaterNames(config.checkLeaders)
    ensures |Run(config, c).results| == if config.checkLeaders then 8 else 7
    ensures Run(config, c).results[2]
      == SettingsResult(SettingsDiff(config, c).diffKeys, SettingsDiff(config, c).missingKeys)
  {
    LaterChecksNames(config, c.brokers.count, c.topicInfo);
    assert Names(Run(config, c).results)
      == [ConfigCorrect, ConfigsConsistent, ConfigSettingsCorrect]
        + Names(LaterChecks(config, c.brokers.count, c.topicInfo));
  }

  /** A lookup error other than "does not exist" does not abort the run:
      the run is the same as if the topic had been found. */
  lemma LookupErrorIgnored(config: CheckConfig, c: Collaborators)
    requires Admissible(config, c) && c.lookup.LookupFailed?
    ensures Admissible(config, c.(lookup := Found))
    ensures Run(config, c) == Run(config, c.(lookup := Found))
  {
    assert SettingsDiff(config, c) == SettingsDiff(config, c.(lookup := Found));
  }

  /** A failing settings diff returns the report so far, whose last entry
      is the still-pending `ConfigSettingsCorrect`, with the diff's error. */
  lemma DiffFailureReturnsPendingEntry(config: CheckConfig, c: Collaborators)
    requires c.brokers.Brokers? && c.validation.None? && c.consistency.None?
    requires !config.validateOnly && !c.lookup.DoesNotExist? && SettingsDiff(config, c).DiffFailed?
    ensures Admissible(config, c)
    ensures Run(config, c) == RunResult(
      [ CheckResult(ConfigCorrect, true, NoMessage),
        CheckResult(ConfigsConsistent, true, NoMessage),
        Pending(ConfigSettingsCorrect) ],
      Some(SettingsDiff(config, c).err))
  {
  }

  /** `LeadersCorrect` is reported exactly when it is asked for and the run
      gets through the settings step. */
  lemma LeadersReportedIffAsked(config: CheckConfig, c: Collaborators)
    requires Admissible(config, c)
    ensures LeadersCorrect in Names(Run(config, c).results) <==> config.checkLeaders && ReachesDivision(config, c)
  {
    var rs := Run(config, c).results;
    if ReachesDivision(config, c) {
      if c.lookup.DoesNotExist? {
        MissingTopicSkipsSettings(config, c);
      } else {
        CompleteRunOrder(config, c);
      }
    } else {
      assert LeadersCorrect !in Names(rs) by {
        if c.brokers.Brokers? && c.validation.None? && c.consistency.None? && !config.validateOnly {
          DiffFailureReturnsPendingEntry(config, c);
        }
      }
    }
  }

  /** Every entry of a run is decided and explains itself exactly when it
      failed, except the pending settings entry a failing diff leaves last. */
  lemma {:induction false} EntriesFinalized(config: CheckConfig, c: Collaborators)
    requires Admissible(config, c)
    ensures forall i :: 0 <= i < |Run(config, c).results| ==>
      Finalized(Run(config, c).results[i])
      || (Run(config, c).err.Some? && i == |Run(config, c).results| - 1
          && Run(config, c).results[i] == Pending(ConfigSettingsCorrect))
  {
    if c.brokers.Brokers? && c.validation.None? && c.consistency.None? && !config.validateOnly {
      var n := c.brokers.count;
      if c.lookup.DoesNotExist? || SettingsDiff(config, c).Diffs? {
        var later := LaterChecks(config, n, c.topicInfo);
        assert forall j :: 0 <= j < |later| ==> Finalized(later[j]);
      }
    }
  }

  predicate Distinct(names: seq<CheckName>) {
    forall i, j :: 0 <= i < j < |names| ==> names[i] != names[j]
  }

  lemma ReportOrdersDistinct(checkLeaders: bool)
    ensures Distinct([ConfigCorrect, ConfigsConsistent, ConfigSettingsCorrect] + LaterNames(checkLeaders))
    ensures Distinct([ConfigCorrect, ConfigsConsistent] + LaterNames(checkLeaders))
  {
  }

  /** No check appears twice in a report. */
  lemma NamesDistinct(config: CheckConfig, c: Collaborators)
    requires Admissible(config, c)
    ensures Distinct(Names(Run(config, c).results))
  {
    ReportOrdersDistinct(config.checkLeaders);
    if ReachesDivision(config, c) {
      if c.lookup.DoesNotExist? {
        MissingTopicSkipsSettings(config, c);
      } else {
        CompleteRunOrder(config, c);
      }
    } else if c.brokers.Brokers? && c.validation.None? && c.consistency.None? && !config.validateOnly {
      DiffFailureReturnsPendingEntry(config, c);
    }
  }

  /** `ReplicationFactorCorrect` passes exactly when the replicas spread
      evenly over the brokers: the factor is a whole multiple of the count. */
  lemma ReplicationEvenSpread(replicationFactor: int, brokers: nat)
    requires brokers > 0
    ensures ReplicationResult(replicationFactor, brokers).passed <==> exists k :: replicationFactor == k * brokers
  {
    if ReplicationResult(replicationFactor, brokers).passed {
      assert replicationFactor == (replicationFactor / brokers) * brokers;
    } else {
      if k :| replicationFactor == k * brokers {
        MultipleHasNoRemainder(k, brokers);
      }
    }
  }

  /** `PartitionCountCorrect` passes exactly when the partitions spread evenly
      over the brokers, or when there is a single partition. */
  lemma PartitionEvenSpread(partitions: int, brokers: nat)
    requires brokers > 0
    ensures PartitionResult(partitions, brokers).passed
      <==> partitions == 1 || exists k :: partitions == k * brokers
  {
    if PartitionResult(partitions, brokers).passed {
      if partitions != 1 {
        assert partitions == (partitions / brokers) * brokers;
      }
    } else {
      if k :| partitions == k * brokers {
        MultipleHasNoRemainder(k, brokers);
      }
    }
  }

  lemma ProductBounds(d: int, n: int)
    requires n >= 1
    ensures d >= 1 ==> d * n >= n
    ensures d <= -1 ==> d * n <= -n
  {
    assert d * n == (d - 1) * n + n;
    assert d * n == (d + 1) * n - n;
  }

  /** A whole multiple of `n` leaves no remainder. */
  lemma MultipleHasNoRemainder(k: int, n: nat)
    requires n > 0
    ensures (k * n) % n == 0
  {
    var q := (k * n) / n;
    var r := (k * n) % n;
    assert (k - q) * n == r by {
      assert k * n == q * n + r;
    }
    ProductBounds(k - q, n);
  }

  /** In a run that gets through the settings step, the replication and
      partition entries are the verdicts on the declared values and the
      broker count. */
  lemma RunDivisibilityVerdicts(config: CheckConfig, c: Collaborators)
    requires Admissible(config, c) && ReachesDivision(config, c)
    ensures var i := if c.lookup.DoesNotExist? then 2 else 3;
      && i + 1 < |Run(config, c).results|
      && Run(config, c).results[i] == ReplicationResult(config.topicConfig.replicationFactor, c.brokers.count)
      && Run(config, c).results[i + 1] == PartitionResult(config.topicConfig.partitions, c.brokers.count)
  {
  }

  /** A single-partition topic passes `PartitionCountCorrect` whatever the
      broker count, four brokers included. */
  lemma SinglePartitionPasses(brokers: nat)
    requires brokers > 0
    ensures PartitionResult(1, brokers).passed
  {
  }

  /** A factor of 3 on 6 brokers fails `ReplicationFactorCorrect`: the rule
      asks for a multiple of the broker count, not a divisor of it. */
  lemma ThreeReplicasOnSixBrokersFail()
    ensures !ReplicationResult(3, 6).passed
    ensures ReplicationResult(3, 6).message == ReplicationNotMultiple(3, 6)
  {
  }

  /** A retention of one minute is compared as 60000 milliseconds under
      `retention.ms`, overriding any declared value. */
  lemma OneMinuteRetention(topic: TopicConfig)
    requires topic.retentionMinutes == 1
    ensures EffectiveSettings(topic)[RetentionKey] == IntSetting(60000)
  {
  }

  /** The settings verdict does not depend on which list a key came from:
      swapping the differing and the missing keys gives the same entry,
      because the combined list is sorted before it is reported. */
  lemma SettingsVerdictIgnoresKeyOrigin(diffKeys: seq<string>, missingKeys: seq<string>)
    ensures Sort(diffKeys + missingKeys) == Sort(missingKeys + diffKeys)
    ensures SettingsResult(diffKeys, missingKeys) == SettingsResult(missingKeys, diffKeys)
  {
    var ab, ba := Sort(diffKeys + missingKeys), Sort(missingKeys + diffKeys);
    assert multiset(diffKeys + missingKeys) == multiset(missingKeys + diffKeys);
    SortedUnique(ab, ba);
  }

  /** A missing topic whose lookup handed back an empty info passes the
      three checks that read the info (ThrottlesClear, ReplicasInSync and
      LeadersCorrect): no throttles, no out-of-sync replicas and no wrong
      leaders are counted on a topic that is not there. The replication and
      partition checks read only the declared config and the broker count. */
  lemma MissingTopicEmptyInfoPasses(config: CheckConfig, c: Collaborators)
    requires Admissible(config, c)
    requires c.brokers.Brokers? && c.validation.None? && c.consistency.None? && !config.validateOnly
    requires c.lookup.DoesNotExist? && c.topicInfo == TopicInfo(map[], 0, false, 0, 0)
    ensures forall i ::
      (0 <= i < |Run(config, c).results|
       && Run(config, c).results[i].name in {ThrottlesClear, ReplicasInSync, LeadersCorrect})
      ==> Run(config, c).results[i].passed
  {
  }
}
