/**
 * The candidate position resolver of emergency reparenting, and the two
 * small helpers that read a stop-replication status.
 *
 * ProtoToReplicationStatus and DecodePosition are not part of this model:
 * they are the parameters `convert` and `decode`, about which nothing is
 * assumed. Go's random map iteration order is modelled by picking the next
 * key with `:|`, so every order is covered.
 */
module Candidates {
  import opened Wrappers
  import opened ReplicationData

  /** The result of FindPositionsOfAllCandidates: alias to ranking position, and the GTID flag. */
  datatype CandidatePositions = CandidatePositions(positions: map<string, Position>, isGTIDBased: bool)

  /** Every status in the map carries an After status (the conversion dereferences it). */
  predicate AfterPresent(statusMap: map<string, StopReplicationStatus>)
  {
    forall alias | alias in statusMap :: statusMap[alias].after.Some?
  }

  /** The decoded After status of every tablet in the status map. */
  function DecodedStatuses(statusMap: map<string, StopReplicationStatus>, convert: StatusProto -> ReplicationStatus): (rs: map<string, ReplicationStatus>)
    requires AfterPresent(statusMap)
    ensures rs.Keys == statusMap.Keys
  {
    map alias | alias in statusMap :: convert(statusMap[alias].after.value)
  }

  predicate AnyGTIDRelay(rs: map<string, ReplicationStatus>)
  {
    exists alias | alias in rs :: IsMysql56(rs[alias].relayLogPosition)
  }

  predicate AnyNonGTIDRelay(rs: map<string, ReplicationStatus>)
  {
    exists alias | alias in rs :: !IsMysql56(rs[alias].relayLogPosition)
  }

  predicate AnyZeroRelay(rs: map<string, ReplicationStatus>)
  {
    exists alias | alias in rs :: IsZero(rs[alias].relayLogPosition)
  }

  predicate AllPrimaryPositionsDecode(primaryStatusMap: map<string, PrimaryStatus>, decode: string -> Result<Position, Error>)
  {
    forall alias | alias in primaryStatusMap :: decode(primaryStatusMap[alias].position).Success?
  }

  /** The three conditions under which the resolver succeeds. */
  predicate Resolvable(rs: map<string, ReplicationStatus>, primaryStatusMap: map<string, PrimaryStatus>, decode: string -> Result<Position, Error>)
  {
    && !(AnyGTIDRelay(rs) && AnyZeroRelay(rs))
    && !(AnyGTIDRelay(rs) && AnyNonGTIDRelay(rs))
    && AllPrimaryPositionsDecode(primaryStatusMap, decode)
  }

  /**
   * The ranking position of every candidate: a demoted primary ranks by its
   * decoded executed position; any other tablet by its relay log position in
   * a GTID-based cluster, by its plain position otherwise.
   */
  function RankingPositions(rs: map<string, ReplicationStatus>, primaryStatusMap: map<string, PrimaryStatus>, decode: string -> Result<Position, Error>): map<string, Position>
    requires AllPrimaryPositionsDecode(primaryStatusMap, decode)
  {
    map alias | alias in rs.Keys + primaryStatusMap.Keys ::
      if alias in primaryStatusMap then decode(primaryStatusMap[alias].position).value
      else if AnyGTIDRelay(rs) then rs[alias].relayLogPosition
      else rs[alias].position
  }

  /**
   * Which error a failed resolution reports. The empty relay position check
   * comes first, then the mix of representations, then decoding; the alias
   * named may be any offending one, as map iteration order decides.
   */
  predicate ExpectedFailure(rs: map<string, ReplicationStatus>, primaryStatusMap: map<string, PrimaryStatus>, decode: string -> Result<Position, Error>, e: Error)
  {
    if AnyGTIDRelay(rs) && AnyZeroRelay(rs) then
      e.EmptyRelayPosition? && e.alias in rs && IsZero(rs[e.alias].relayLogPosition)
    else if AnyGTIDRelay(rs) && AnyNonGTIDRelay(rs) then
      e == MixedRelayLogs
    else
      && e.UndecodablePrimaryPosition?
      && e.alias in primaryStatusMap
      && decode(primaryStatusMap[e.alias].position) == Failure(e.cause)
  }

  /** The first loop of FindPositionsOfAllCandidates: decode every After status. */
  method ConvertStatuses(statusMap: map<string, StopReplicationStatus>, convert: StatusProto -> ReplicationStatus)
    returns (replicationStatusMap: map<string, ReplicationStatus>)
    requires AfterPresent(statusMap)
    ensures replicationStatusMap == DecodedStatuses(statusMap, convert)
  {
    replicationStatusMap := map[];
    var pending := statusMap.Keys;
    while pending != {}
      invariant pending <= statusMap.Keys
      invariant replicationStatusMap == map alias | alias in statusMap.Keys - pending :: convert(statusMap[alias].after.value)
      decreases pending
    {
      var alias :| alias in pending;
      replicationStatusMap := replicationStatusMap[alias := convert(statusMap[alias].after.value)];
      pending := pending - {alias};
    }
  }

  /**
   * The second loop: whether some relay log is GTID based, whether some is
   * not, and the first recorded empty relay position error, if any.
   */
  method ClassifyRelayLogs(rs: map<string, ReplicationStatus>)
    returns (isGTIDBased: bool, isNonGTIDBased: bool, emptyRelayPosError: Option<Error>)
    ensures isGTIDBased == AnyGTIDRelay(rs)
    ensures isNonGTIDBased == AnyNonGTIDRelay(rs)
    ensures emptyRelayPosError.Some? == AnyZeroRelay(rs)
    ensures emptyRelayPosError.Some? ==>
              && emptyRelayPosError.value.EmptyRelayPosition?
              && emptyRelayPosError.value.alias in rs
              && IsZero(rs[emptyRelayPosError.value.alias].relayLogPosition)
  {
    isGTIDBased, isNonGTIDBased := false, false;
    emptyRelayPosError := None;
    var pending := rs.Keys;
    while pending != {}
      invariant pending <= rs.Keys
      invariant isGTIDBased <==> exists alias | alias in rs.Keys - pending :: IsMysql56(rs[alias].relayLogPosition)
      invariant isNonGTIDBased <==> exists alias | alias in rs.Keys - pending :: !IsMysql56(rs[alias].relayLogPosition)
      invariant emptyRelayPosError.Some? <==> exists alias | alias in rs.Keys - pending :: IsZero(rs[alias].relayLogPosition)
      invariant emptyRelayPosError.Some? ==>
                  && emptyRelayPosError.value.EmptyRelayPosition?
                  && emptyRelayPosError.value.alias in rs
                  && IsZero(rs[emptyRelayPosError.value.alias].relayLogPosition)
      decreases pending
    {
      var alias :| alias in pending;
      var status := rs[alias];
      if IsMysql56(status.relayLogPosition) {
        isGTIDBased := true;
      } else {
        isNonGTIDBased := true;
      }
      if IsZero(status.relayLogPosition) && emptyRelayPosError.None? {
        // A first-error recorder keeps only the first error it is given.
        emptyRelayPosError := Some(EmptyRelayPosition(alias));
      }
      pending := pending - {alias};
    }
    assert rs.Keys - pending == rs.Keys;
  }

  /** The third loop: relay log positions in a GTID-based cluster, plain positions otherwise. */
  method StatusPositions(rs: map<string, ReplicationStatus>, isGTIDBased: bool) returns (positionMap: map<string, Position>)
    ensures positionMap.Keys == rs.Keys
    ensures forall alias | alias in rs ::
              positionMap[alias] == if isGTIDBased then rs[alias].relayLogPosition else rs[alias].position
  {
    positionMap := map[];
    var pending := rs.Keys;
    while pending != {}
      invariant pending <= rs.Keys
      invariant positionMap.Keys == rs.Keys - pending
      invariant forall alias | alias in positionMap ::
                  positionMap[alias] == if isGTIDBased then rs[alias].relayLogPosition else rs[alias].position
      decreases pending
    {
      var alias :| alias in pending;
      var status := rs[alias];
      if !isGTIDBased {
        positionMap := positionMap[alias := status.position];
      } else {
        positionMap := positionMap[alias := status.relayLogPosition];
      }
      pending := pending - {alias};
    }
  }

  /**
   * The fourth loop: overwrite or insert the decoded executed position of
   * every demoted primary; the first undecodable one (in map order) aborts.
   */
  method OverlayPrimaryPositions(base: map<string, Position>, primaryStatusMap: map<string, PrimaryStatus>, decode: string -> Result<Position, Error>)
    returns (r: Result<map<string, Position>, Error>)
    ensures r.Success? <==> AllPrimaryPositionsDecode(primaryStatusMap, decode)
    ensures r.Success? ==> r.value.Keys == base.Keys + primaryStatusMap.Keys
    ensures r.Success? ==> forall alias | alias in r.value ::
              r.value[alias] == if alias in primaryStatusMap then decode(primaryStatusMap[alias].position).value else base[alias]
    ensures r.Failure? ==>
              && r.error.UndecodablePrimaryPosition?
              && r.error.alias in primaryStatusMap
              && decode(primaryStatusMap[r.error.alias].position) == Failure(r.error.cause)
  {
    var positionMap := base;
    var pending := primaryStatusMap.Keys;
    while pending != {}
      invariant pending <= primaryStatusMap.Keys
      invariant forall alias | alias in primaryStatusMap.Keys - pending :: decode(primaryStatusMap[alias].position).Success?
      invariant positionMap.Keys == base.Keys + (primaryStatusMap.Keys - pending)
      invariant forall alias | alias in positionMap ::
                  positionMap[alias] == if alias in primaryStatusMap.Keys - pending then decode(primaryStatusMap[alias].position).value else base[alias]
      decreases pending
    {
      var alias :| alias in pending;
      var executedPosition := decode(primaryStatusMap[alias].position);
      if executedPosition.Failure? {
        return Failure(UndecodablePrimaryPosition(alias, executedPosition.error));
      }
      positionMap := positionMap[alias := executedPosition.value];
      pending := pending - {alias};
    }
    assert primaryStatusMap.Keys - pending == primaryStatusMap.Keys;
    return Success(positionMap);
  }

  /**
   * FindPositionsOfAllCandidates: validates that all relay logs use one
   * position representation and builds the alias to ranking position map.
   */
  method FindPositionsOfAllCandidates(
    statusMap: map<string, StopReplicationStatus>,
    primaryStatusMap: map<string, PrimaryStatus>,
    convert: StatusProto -> ReplicationStatus,
    decode: string -> Result<Position, Error>)
    returns (r: Result<CandidatePositions, Error>)
    requires AfterPresent(statusMap)
    ensures r.Success? <==> Resolvable(DecodedStatuses(statusMap, convert), primaryStatusMap, decode)
    ensures r.Success? ==>
              r.value == CandidatePositions(RankingPositions(DecodedStatuses(statusMap, convert), primaryStatusMap, decode),
                                            AnyGTIDRelay(DecodedStatuses(statusMap, convert)))
    ensures r.Failure? ==> ExpectedFailure(DecodedStatuses(statusMap, convert), primaryStatusMap, decode, r.error)
  {
    var replicationStatusMap := ConvertStatuses(statusMap, convert);
    var isGTIDBased, isNonGTIDBased, emptyRelayPosError := ClassifyRelayLogs(replicationStatusMap);
    if isGTIDBased && emptyRelayPosError.Some? {
      return Failure(emptyRelayPosError.value);
    }
    if isGTIDBased && isNonGTIDBased {
      return Failure(MixedRelayLogs);
    }
    var positionMap := StatusPositions(replicationStatusMap, isGTIDBased);
    var overlaid := OverlayPrimaryPositions(positionMap, primaryStatusMap, decode);
    if overlaid.Failure? {
      return Failure(overlaid.error);
    }
    r := Success(CandidatePositions(overlaid.value, isGTIDBased));
    assert overlaid.value == RankingPositions(replicationStatusMap, primaryStatusMap, decode);
  }

  /** The key set of the ranking map is every reached tablet, replica or demoted primary. */
  lemma RankingPositionsKeys(rs: map<string, ReplicationStatus>, primaryStatusMap: map<string, PrimaryStatus>, decode: string -> Result<Position, Error>)
    requires AllPrimaryPositionsDecode(primaryStatusMap, decode)
    ensures RankingPositions(rs, primaryStatusMap, decode).Keys == rs.Keys + primaryStatusMap.Keys
  {
  }

  /**
   * ReplicaWasRunning: an error exactly when the stop status or its Before
   * state is nil; otherwise whether either replication thread was running.
   */
  function ReplicaWasRunning(stopStatus: Option<StopReplicationStatus>, convert: StatusProto -> ReplicationStatus): (r: Result<bool, Error>)
    ensures r.Failure? <==> stopStatus.None? || stopStatus.value.before.None?
    ensures r.Failure? ==> r.error == NoBeforeState
    ensures r.Success? ==>
              (r.value <==> convert(stopStatus.value.before.value).ioState == StateRunning
                            || convert(stopStatus.value.before.value).sqlState == StateRunning)
  {
    if stopStatus.None? || stopStatus.value.before.None? then
      Failure(NoBeforeState)
    else
      var replStatus := convert(stopStatus.value.before.value);
      Success(replStatus.ioState == StateRunning || replStatus.sqlState == StateRunning)
  }

  /**
   * The position WaitForRelayLogsToApply waits for: the After relay log
   * position, or its binlog-equivalent position when the former is empty.
   */
  function RelayLogWaitPosition(status: StopReplicationStatus): (p: string)
    requires status.after.Some?
    ensures p == "" <==> status.after.value.relayLogPosition == "" && status.after.value.relayLogSourceBinlogEquivalentPosition == ""
    ensures status.after.value.relayLogPosition != "" ==> p == status.after.value.relayLogPosition
    ensures status.after.value.relayLogPosition == "" ==> p == status.after.value.relayLogSourceBinlogEquivalentPosition
  {
    match status.after.value.relayLogPosition
    case "" => status.after.value.relayLogSourceBinlogEquivalentPosition
    case _ => status.after.value.relayLogPosition
  }

  /**
   * WaitForRelayLogsToApply: asks the tablet to wait for the chosen position
   * and returns the wait's error unchanged (None is success).
   */
  function WaitForRelayLogsToApply(tablet: Tablet, status: StopReplicationStatus, waitForPosition: (Tablet, string) -> Option<Error>): (r: Option<Error>)
    requires status.after.Some?
    ensures status.after.value.relayLogPosition != "" ==> r == waitForPosition(tablet, status.after.value.relayLogPosition)
    ensures status.after.value.relayLogPosition == "" ==> r == waitForPosition(tablet, status.after.value.relayLogSourceBinlogEquivalentPosition)
  {
    waitForPosition(tablet, RelayLogWaitPosition(status))
  }
}
