/** The check report: an ordered log of check outcomes that `CheckTopic`
    grows with `AppendResult` and finalizes with `UpdateLastResult`. */
module Report {

  /** The eight checks `CheckTopic` can run, in no particular order. */
  datatype CheckName =
    | ConfigCorrect
    | ConfigsConsistent
    | ConfigSettingsCorrect
    | ReplicationFactorCorrect
    | PartitionCountCorrect
    | ThrottlesClear
    | ReplicasInSync
    | LeadersCorrect

  /** An error value returned by a collaborator, by its text. */
  datatype Error = Error(text: string)

  /** The details of a result, as structured values instead of the
      `fmt.Sprintf` text; `NoMessage` is the empty string. */
  datatype Message =
    | NoMessage
    | ValidationError(validationErr: Error)
    | ConsistencyError(consistencyErr: Error)
    | KeysDiffer(keyCount: nat, keys: seq<string>)
    | ReplicationNotMultiple(replicationFactor: int, replicationBrokers: nat)
    | PartitionsNotMultiple(partitions: int, partitionBrokers: nat)
    | ExistingThrottles
    | OutOfSyncReplicas(outOfSync: nat, outOfSyncTotal: nat)
    | WrongLeaders(wrongLeaders: nat, wrongLeadersTotal: nat)

  datatype CheckResult = CheckResult(name: CheckName, passed: bool, message: Message)

  /** `TopicCheckResult{Name: name}`: a result that has not been decided yet. */
  function Pending(name: CheckName): (r: CheckResult)
    ensures r.name == name && !r.passed && !Finalized(r)
  {
    CheckResult(name, false, NoMessage)
  }

  /** A decided result explains itself exactly when it failed. */
  predicate Finalized(r: CheckResult) {
    r.passed <==> r.message.NoMessage?
  }

  /** The check names of a report, in order. */
  function Names(rs: seq<CheckResult>): seq<CheckName> {
    seq(|rs|, i requires 0 <= i < |rs| => rs[i].name)
  }

  /** `TopicCheckResults`: the report one run of `CheckTopic` builds. */
  class TopicCheckResults {
    var results: seq<CheckResult>

    constructor ()
      ensures results == []
    {
      results := [];
    }

    /** The entry `UpdateLastResult` overwrites. */
    function Last(): CheckResult
      reads this
      requires |results| > 0
    {
      results[|results| - 1]
    }

    /** Adds `result` at the end of the report. */
    method AppendResult(result: CheckResult)
      modifies this
      ensures results == old(results) + [result]
    {
      results := results + [result];
    }

    /** Decides the last entry: keeps its name, sets its outcome and message,
        and leaves every earlier entry as it was. */
    method UpdateLastResult(passed: bool, message: Message)
      requires |results| > 0
      modifies this
      ensures results == old(results[..|results| - 1]) + [CheckResult(old(Last()).name, passed, message)]
    {
      results := results[|results| - 1 := CheckResult(Last().name, passed, message)];
    }
  }
}
