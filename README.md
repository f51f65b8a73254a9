# topicctl topic check, modelled in Dafny

This project models `CheckTopic` from topicctl's `pkg/check/check.go`, the
engine behind `topicctl check`. Given a declared topic config and a view of
the cluster, it runs an ordered series of checks and returns a report: a
sequence of `{name, passed, message}` entries together with an optional
error. The run appends a pending entry for each check with `AppendResult`
and then decides it with `UpdateLastResult`.

The order of the checks is ConfigCorrect, ConfigsConsistent,
ConfigSettingsCorrect, ReplicationFactorCorrect, PartitionCountCorrect,
ThrottlesClear and ReplicasInSync, then LeadersCorrect when `CheckLeaders` is
set. The run stops early in these cases:

- the broker query fails: the report is empty and the error is returned;
- the config is invalid or inconsistent: the run stops after that entry, with
  no error;
- `ValidateOnly` is set: the run stops after the two static checks;
- the settings diff fails: the run returns that error, and the report still
  holds the pending ConfigSettingsCorrect entry.

ConfigSettingsCorrect is skipped when the topic does not exist.

Files:

- `report.dfy` (module `Report`): the check names and the structured
  messages. It also holds the report class `TopicCheckResults`, whose
  `results` field is a `seq` that `AppendResult` and `UpdateLastResult`
  reassign.
- `check.dfy` (module `Check`): the inputs of a run, and the effective
  settings with the retention override. It has one function per check for
  what that check decides, and `Run`, the function that gives a run's
  report and error stage by stage. `CheckTopic` is the imperative method,
  split into one method per block of the source, and is proved to return
  exactly `Run`'s report and error.
- `key_order.dfy` (module `KeyOrder`): Go's string order (on code points) and a
  reference sort. It also holds the in-place insertion sort that stands for
  `sort.Slice`. That sort is proved to give the unique sorted permutation of
  its input.
- `check_properties.dfy` (module `CheckProperties`): lemmas about `Run`:
  - the early exits;
  - the skipped settings check;
  - the fixed order and length of a complete report;
  - the divisibility rules, stated as "is a whole multiple of the broker
    count";
  - the rule that every decided entry has a message exactly when it failed;
  - no check appears twice.
- `wrappers.dfy` (module `Wrappers`): `Option`, for Go's nil-or-error results.

The collaborators are inputs of the model, in a `Collaborators` value:

- the broker query: a count or an error;
- the validator's and the consistency checker's answers: nil or an error;
- the topic lookup: as in Go, the `TopicInfo` it returns together with
  found, does-not-exist or another error;
- `ConfigMapDiffs`: a function from the effective settings and the live
  config to the two key lists or an error.

`IsThrottled`, `OutOfSyncPartitions(nil)`, `WrongLeaderPartitions(nil)` and
`len(Partitions)` are fields of the modelled `TopicInfo`. These fields are
what those calls return.

Some behaviours of the code are easy to miss:

- A topic lookup error other than "does not exist" does not abort the run.
  The error is dropped (pkg/check/check.go:78-85). The run goes on with the
  returned `TopicInfo` and still appends ConfigSettingsCorrect
  (`LookupErrorIgnored`).
- A failed ConfigCorrect returns a one-entry report
  (`ValidationFailureStops`).
- ReplicationFactorCorrect asks for a whole multiple of the broker count, not
  a divisor of it. With 6 brokers and replication factor 3 it fails, and the
  message says "must be a multiple of len(broker)"
  (`ThreeReplicasOnSixBrokersFail`). A complete run on an existing topic has 7
  entries, 8 with `CheckLeaders` (`CompleteRunOrder`).
- `UpdateLastResult` requires only a non-empty report, because every call
  in `CheckTopic` comes straight after an `AppendResult`.
- When the topic does not exist, ThrottlesClear, ReplicasInSync and
  LeadersCorrect read whatever `TopicInfo` the lookup handed back. An empty
  info makes those three pass (`MissingTopicEmptyInfoPasses`).
  ReplicationFactorCorrect and PartitionCountCorrect read only the declared
  config and the broker count, so they can still fail.

`CheckTopic` requires a broker count above 0 only when the run reaches the
`% len(brokers)` at pkg/check/check.go:142 (`Admissible`). On other paths an
empty broker list does no harm in Go. Where it is reached, Go would panic.

## Model

| member | source | states |
|---|---|---|
| Report.Pending | pkg/check/check.go:33-37 | an entry appended before its check runs carries the check's name, has not passed and has no message, so it is not yet a decided entry |
| Report.TopicCheckResults.constructor | pkg/check/check.go:26 | a run starts from an empty report |
| Report.TopicCheckResults.AppendResult | pkg/check/check.go:33-37 | the new entry goes at the end and the earlier entries stay as they were |
| Report.TopicCheckResults.UpdateLastResult | pkg/check/check.go:39-44 | on a non-empty report, only the last entry changes: it keeps its name and takes the given outcome and message |
| Check.WrapInt64 | pkg/check/check.go:102 | the result is the 64-bit value congruent to the input modulo 2^64, and equals the input when the input is in range |
| Check.RetentionMillis | pkg/check/check.go:101-102 | for retention minutes from 1 up to the 64-bit limit, the override is exactly minutes × 60000 and is positive |
| Check.EffectiveSettings | pkg/check/check.go:100-103 | with positive retention minutes, `retention.ms` maps to the converted value; otherwise the map is the declared map; every other key keeps its declared presence and value |
| Check.ConfigCorrectResult | pkg/check/check.go:38-47 | ConfigCorrect passes iff the validator returns nil; a failure carries the validator's error |
| Check.ConfigsConsistentResult | pkg/check/check.go:55-64 | ConfigsConsistent passes iff the consistency checker returns nil; a failure carries its error |
| Check.SettingsResult | pkg/check/check.go:110-133 | passes iff no key differs and none is missing; a failure reports count = number of diff keys plus missing keys, and a sorted permutation of the two lists together |
| Check.ReplicationResult | pkg/check/check.go:142-153 | the entry is named ReplicationFactorCorrect, is decided, and on failure reports the factor and the broker count |
| Check.PartitionResult | pkg/check/check.go:161-172 | the entry is named PartitionCountCorrect, is decided, and on failure reports the partition count and the broker count |
| Check.ThrottleResult | pkg/check/check.go:180-187 | ThrottlesClear passes iff the topic is not throttled |
| Check.InSyncResult | pkg/check/check.go:195-208 | ReplicasInSync passes iff no partition is out of sync; a failure reports the out-of-sync count over the partition total |
| Check.LeadersResult | pkg/check/check.go:217-230 | LeadersCorrect passes iff no partition has a wrong leader; a failure reports that count over the partition total |
| Check.LaterChecks | pkg/check/check.go:135-231 | the checks after the settings step: four decided entries named ReplicationFactorCorrect, PartitionCountCorrect, ThrottlesClear, ReplicasInSync, then LeadersCorrect as a fifth only when asked for |
| Check.LiveRun | pkg/check/check.go:76-233 | after the static checks, the run fails exactly when the topic was not reported missing and the diff fails, leaving only the pending settings entry; otherwise it adds 4 or 5 entries, plus one settings entry first exactly when the topic was not reported missing |
| Check.Run | pkg/check/check.go:25-234 | the report is empty exactly when the broker query fails; an error is returned exactly when the broker query or the settings diff fails; a report has at most 8 entries and starts with ConfigCorrect |
| Check.CombineKeys | pkg/check/check.go:113-119 | the two append loops produce the diff keys followed by the missing keys |
| Check.CheckConfigCorrect | pkg/check/check.go:32-47 | appends exactly the ConfigCorrect verdict and says whether the run goes on |
| Check.CheckConfigsConsistent | pkg/check/check.go:49-64 | appends exactly the ConfigsConsistent verdict and says whether the run goes on |
| Check.CheckSettings | pkg/check/check.go:91-134 | a failing diff leaves a pending ConfigSettingsCorrect entry and returns the diff's error; otherwise it appends the settings verdict on the diff of the effective settings |
| Check.CheckReplicationFactor | pkg/check/check.go:135-153 | appends exactly the replication-factor verdict |
| Check.CheckPartitionCount | pkg/check/check.go:155-172 | appends exactly the partition-count verdict |
| Check.CheckThrottles | pkg/check/check.go:174-187 | appends exactly the throttle verdict |
| Check.CheckReplicasInSync | pkg/check/check.go:189-208 | appends exactly the in-sync verdict |
| Check.CheckLeaders | pkg/check/check.go:210-231 | appends the leader verdict when CheckLeaders is set, and nothing otherwise |
| Check.CheckLive | pkg/check/check.go:76-233 | after the static checks: the settings step unless the topic does not exist, then the later checks |
| Check.CheckTopic | pkg/check/check.go:25-234 | returns a fresh report whose entries and error are exactly those of `Run` |
| KeyOrder.Sort | pkg/check/check.go:121-123 | the reference order of the keys: a sorted permutation of its input, of the same length |
| KeyOrder.SortKeys | pkg/check/check.go:121-123 | the in-place sort leaves its keys sorted by Go's string order and a permutation of the input, equal to the reference order |
| KeyOrder.SinkInto | pkg/check/check.go:121-123 | one insertion step extends the sorted prefix by one, permuting the keys and leaving the rest untouched |
| KeyOrder.SortedUnique | pkg/check/check.go:121-123 | two sorted permutations of one key list are equal, so the unstable `sort.Slice` still gives one order |
| KeyOrder.Less | pkg/check/check.go:122 | Go's string `<`: a proper prefix comes before the longer string |
| KeyOrder.LessTotal | pkg/check/check.go:122 | Go's string `<` orders any two different keys one way or the other |
| KeyOrder.LessTransitive | pkg/check/check.go:122 | Go's string `<` is transitive |
| CheckProperties.BrokerFailureReturnsEmptyReport | pkg/check/check.go:26-30 | a failed broker query gives the empty report and that error |
| CheckProperties.ValidationFailureStops | pkg/check/check.go:33-47 | an invalid config gives exactly one failed ConfigCorrect entry and no error |
| CheckProperties.ConsistencyFailureStops | pkg/check/check.go:49-64 | an inconsistent config gives exactly [ConfigCorrect passed, ConfigsConsistent failed] and no error |
| CheckProperties.ValidateOnlyStops | pkg/check/check.go:66-68 | with ValidateOnly and both static checks passing, the report is exactly the two passed entries, with no error |
| CheckProperties.ValidateOnlyNeverLooksUpTopic | pkg/check/check.go:66-77 | with ValidateOnly, no answer of the topic lookup or the settings diff changes the run |
| CheckProperties.LaterChecksNames | pkg/check/check.go:135-231 | the checks after the settings step are named in the order of the source, with LeadersCorrect last and only when asked for |
| CheckProperties.MissingTopicSkipsSettings | pkg/check/check.go:76-92 | a topic that does not exist gets no ConfigSettingsCorrect entry; the other live checks follow in order, with no error |
| CheckProperties.CompleteRunOrder | pkg/check/check.go:33-233 | a complete run on a topic not reported missing has 7 entries (8 with CheckLeaders), named in the order of the source, the third being the settings verdict |
| CheckProperties.LookupErrorIgnored | pkg/check/check.go:76-85 | a lookup error other than does-not-exist gives the same run as a successful lookup |
| CheckProperties.DiffFailureReturnsPendingEntry | pkg/check/check.go:94-108 | a failing diff returns the two passed static entries and a pending ConfigSettingsCorrect entry, with the diff's error |
| CheckProperties.LeadersReportedIffAsked | pkg/check/check.go:210-231 | LeadersCorrect is in the report iff CheckLeaders is set and the run gets through the settings step |
| CheckProperties.EntriesFinalized | pkg/check/check.go:33-231 | every entry has a message iff it failed, except the pending settings entry that a failing diff leaves last |
| CheckProperties.NamesDistinct | pkg/check/check.go:33-231 | no check appears twice in a report |
| CheckProperties.ReplicationEvenSpread | pkg/check/check.go:142 | ReplicationFactorCorrect passes iff the factor is a whole multiple of the broker count (the same for Go's truncating `%`) |
| CheckProperties.PartitionEvenSpread | pkg/check/check.go:161 | PartitionCountCorrect passes iff the partition count is 1 or a whole multiple of the broker count |
| CheckProperties.MultipleHasNoRemainder | pkg/check/check.go:142 | a whole multiple of the broker count leaves no remainder |
| CheckProperties.RunDivisibilityVerdicts | pkg/check/check.go:136-172 | a run that reaches line 142 reports the replication and partition verdicts on the declared values and the broker count, at their fixed places |
| CheckProperties.SinglePartitionPasses | pkg/check/check.go:161 | one partition passes whatever the broker count |
| CheckProperties.ThreeReplicasOnSixBrokersFail | pkg/check/check.go:142-152 | factor 3 on 6 brokers fails, with a message giving both numbers |
| CheckProperties.OneMinuteRetention | pkg/check/check.go:100-103 | one retention minute is compared as 60000 under `retention.ms` |
| CheckProperties.SettingsVerdictIgnoresKeyOrigin | pkg/check/check.go:113-131 | sorting the combined keys makes the settings entry independent of which list a key came from: swapping the diff keys and the missing keys gives the same entry |
| CheckProperties.MissingTopicEmptyInfoPasses | pkg/check/check.go:76-92 | when the topic does not exist and the lookup handed back an empty info, the three checks that read the info (ThrottlesClear, ReplicasInSync, LeadersCorrect) pass |

## Left out

- `context.Context` and the admin client's `GetBrokers` and `GetTopic` are network calls. Their replies are inputs of the model.
- The internals of these calls are inputs too, given by their results: `TopicConfig.Validate`, `CheckConsistency`, `ConfigMapDiffs`, `IsThrottled`, `OutOfSyncPartitions` and `WrongLeaderPartitions`. For this reason `NumRacks` and the cluster config reach only the validator and the consistency checker, and are not used by the model.
- The definition of `TopicCheckResults` and its two methods is not part of this model. The class is modelled from how `CheckTopic` uses them.
- The `fmt.Sprintf` wording is left out. Messages are structured values: the error, the key count and list, or the two numbers. "Non-empty" means any message other than `NoMessage`.
- The algorithm inside `sort.Slice` is left out. An insertion sort stands for it. Both give the unique sorted arrangement, so the reported list is the same.
- Setting values other than integers (strings, floats, lists) are modelled by their text. Only the retention override creates a value itself.
- The commented-out TopicExists check is dead code and is not modelled.
- Check.RetentionMillis assumes Go's `int` is 64 bits wide. On 32-bit platforms the product would wrap at 2^32.
- KeyOrder.Less compares code points one by one. This is Go's byte-wise order only on valid UTF-8 keys. Keys holding invalid UTF-8 bytes are not modelled.
- The `TopicInfo` that `GetTopic` returns with an error is an unconstrained input. The model does not assume it is Go's zero value.
