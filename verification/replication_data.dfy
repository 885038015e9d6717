/**
 * The replication values the emergency-reparent code reads: positions,
 * per-tablet replication statuses as they arrive over RPC, tablets, and the
 * errors the reparent utilities produce.
 */
module ReplicationData {
  import opened Wrappers

  /**
   * The concrete GTID-set type behind a position. Only the MySQL 5.6 GTID
   * set counts as "GTID based" for candidate ranking; a file/offset position
   * or an absent set does not.
   */
  datatype GTIDSetKind = NoGTIDSet | Mysql56GTIDSet | FilePosGTID | MariadbGTIDSet

  /**
   * A replication position, kept abstract: its tag, whether it covers no
   * transaction at all, and its contents in wire form. Ordering of positions
   * is not needed by the code modelled here.
   */
  datatype Position = Position(gtidSet: GTIDSetKind, zero: bool, contents: string)

  predicate IsMysql56(p: Position) { p.gtidSet == Mysql56GTIDSet }

  predicate IsZero(p: Position) { p.zero }

  /** State of the IO or SQL replication thread once decoded. */
  datatype ReplicationState = StateUnknown | StateStopped | StateConnecting | StateRunning

  /** The replication status message of one tablet, as sent over RPC. */
  datatype StatusProto = StatusProto(
    position: string,
    relayLogPosition: string,
    relayLogSourceBinlogEquivalentPosition: string,
    ioState: int,
    sqlState: int,
    backupRunning: bool)

  /** A decoded replication status: the result of converting a StatusProto. */
  datatype ReplicationStatus = ReplicationStatus(
    position: Position,
    relayLogPosition: Position,
    ioState: ReplicationState,
    sqlState: ReplicationState)

  /** What StopReplicationAndGetStatus reports: the status before and after the stop, each possibly nil. */
  datatype StopReplicationStatus = StopReplicationStatus(before: Option<StatusProto>, after: Option<StatusProto>)

  /** What DemotePrimary reports: the executed position of the demoted tablet, in wire form. */
  datatype PrimaryStatus = PrimaryStatus(position: string, filePosition: string)

  /** A tablet record; only its alias matters to the code modelled here. */
  datatype Tablet = Tablet(alias: string)

  /**
   * Errors of the reparent utilities. The comment on each names the vtrpc
   * code it is created with; a wrapping error keeps the code of its cause.
   */
  datatype Error =
      /** An error returned by a tablet-manager RPC or by position decoding. */
    | RemoteError(message: string)
      /** UNAVAILABLE: a tablet without relay log position among GTID-based ones. */
    | EmptyRelayPosition(alias: string)
      /** FAILED_PRECONDITION: GTID-based and non GTID-based relay logs mixed. */
    | MixedRelayLogs
      /** Wraps the decode error of a demoted primary's executed position. */
    | UndecodablePrimaryPosition(alias: string, cause: Error)
      /** INVALID_ARGUMENT: the Before state of a stop status is missing. */
    | NoBeforeState
      /** Wraps the error of DemotePrimary on a tablet that thinks it is primary. */
    | DemoteFailed(alias: string, cause: Error)
      /** Wraps any other error of StopReplicationAndGetStatus. */
    | StatusFailed(alias: string, cause: Error)
      /** Wraps the error recorder's error, which carries every recorded error, first one first. */
    | InsufficientReach(recorded: seq<Error>)
}
