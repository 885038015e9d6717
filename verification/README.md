# Vitess: emergency-reparent positions and VDiff extra-row reconciliation

This project models two sequential pieces of Vitess logic in Dafny and
proves properties of them.

**Emergency reparenting** (`go/vt/vtctl/reparentutil/replication.go`)

- `FindPositionsOfAllCandidates` decides whether the shard's relay logs are
  GTID based. It rejects an empty relay position in a GTID-based shard. It
  rejects a mix of GTID-based and non GTID-based relay logs. It then builds
  the map from alias to ranking position, and a demoted primary's decoded
  executed position overrides that map's entry for it.
- `ReplicaWasRunning` and the position chosen by `WaitForRelayLogsToApply`.
- The sequential decision core of `stopReplicationAndBuildStatusMaps`:
  - which tablets get a task;
  - the error group's thresholds;
  - how `fillStatus` files each tablet's outcome into the replication
    snapshot;
  - the final verdict, which asks the durability policy only when more
    than one error was recorded.

**VDiff reconciliation** (`go/vt/vttablet/tabletmanager/vdiff/workflow_differ.go`)

- `reconcileReferenceTables` clears a side's extra rows when they are shard
  copies of a reference table.
- `doReconcileExtraRows` greedily pairs equal extra rows of the source and
  the target, rebuilds both lists from the unmatched rows, moves the pairs to
  the matching count and trims the sample lists.
- `reconcileExtraRows` runs the two in sequence.

Files:

- `wrappers.dfy`: `Option` and `Result`.
- `replication_data.dfy`: positions, replication statuses, tablets and the
  errors the reparent code returns.
- `candidates.dfy`: `FindPositionsOfAllCandidates` as four map loops,
  `ReplicaWasRunning` and the relay-log wait position.
- `stop_replication.dfy`: the launch loop and the error-group thresholds; the
  `replicationSnapshot` object and `fillStatus`; the verdict.
- `vdiff_report.dfy`: `RowDiff`, and the `DiffReport` object with its value.
- `row_matching.dfy`: the reference definitions the loops are proved
  against, and the two loops:
  - the reference definitions are the rows selected by a flag sequence and
    the greedy matching;
  - the loops are the nested matching loop over boolean arrays and the loop
    that rebuilds a list.
- `workflow_differ.dfy`: the reconciliation steps on the report object, each
  proved equal to a function on report values, with lemmas about those
  functions.

Loops over a Go map run in an iteration order that is not specified. The
model covers every order:

- `candidates.dfy` picks the next key with `:|`.
- `stopReplicationAndBuildStatusMaps` takes the order as an input sequence
  that holds each key exactly once.

Some functions the model cannot see are function-typed parameters about which
nothing is assumed: `ProtoToReplicationStatus`, `DecodePosition`,
`WaitForPosition` and the durability check `haveRevoked`.

The goroutines of `stopReplicationAndBuildStatusMaps` are not modelled. Their
outcomes are an input sequence, in the order their updates took the mutex.

## Model

| member | source | states |
|---|---|---|
| Candidates.ConvertStatuses | go/vt/vtctl/reparentutil/replication.go:50-57 | the replication status map has the status map's keys, each bound to the conversion of its After status |
| Candidates.ClassifyRelayLogs | go/vt/vtctl/reparentutil/replication.go:61-80 | the GTID flag is set iff some relay log position is a MySQL 5.6 GTID set, the non-GTID flag iff some is not; an empty-relay error is recorded iff some relay position is zero, and it names such a tablet |
| Candidates.StatusPositions | go/vt/vtctl/reparentutil/replication.go:90-98 | every replica gets its relay log position when GTID based and its plain position otherwise, and no other key is present |
| Candidates.OverlayPrimaryPositions | go/vt/vtctl/reparentutil/replication.go:100-107 | succeeds iff every primary position decodes; then the keys are the replicas' plus the primaries', and a primary's decoded executed position replaces any replica entry; otherwise the error names a primary whose decode failed and wraps that failure |
| Candidates.FindPositionsOfAllCandidates | go/vt/vtctl/reparentutil/replication.go:46-110 | succeeds iff there is no zero relay position in a GTID-based shard, no mix of GTID and non-GTID relay logs, and every primary position decodes. On success the result is the ranking map and the GTID flag. On failure the error follows the source's check order: empty relay position first (so a zero relay position is only an error when some relay log is GTID based), then the mix, then the first undecodable primary |
| Candidates.RankingPositionsKeys | go/vt/vtctl/reparentutil/replication.go:90-107 | the ranking map's keys are exactly the status map's keys plus the primary status map's keys |
| Candidates.ReplicaWasRunning | go/vt/vtctl/reparentutil/replication.go:115-123 | fails with the INVALID_ARGUMENT error iff the status or its Before state is nil; otherwise true iff the IO or the SQL thread was running |
| Candidates.RelayLogWaitPosition | go/vt/vtctl/reparentutil/replication.go:310-315 | the After relay log position when it is not empty, else the relay log's binlog-equivalent position; empty only when both are |
| Candidates.WaitForRelayLogsToApply | go/vt/vtctl/reparentutil/replication.go:309-316 | the result is the wait's own result for the After relay log position, or for the binlog-equivalent position when the relay log position is empty |
| StopReplication.TabletsInOrder | go/vt/vtctl/reparentutil/replication.go:260-261 | allTablets has one entry per visited alias, the alias's tablet, in visiting order |
| StopReplication.LaunchesOfAliases | go/vt/vtctl/reparentutil/replication.go:260-273 | a task is launched for exactly the visited aliases that are not ignored |
| StopReplication.LaunchesOfDistinct | go/vt/vtctl/reparentutil/replication.go:260-273 | over an order without repeats, no tablet gets two tasks |
| StopReplication.LaunchesOfCount | go/vt/vtctl/reparentutil/replication.go:255-273 | over an order without repeats, the number of tasks is the number of aliases that are not ignored, and numErrorsToWaitFor is 1 iff the alias to wait for is among them, else 0 |
| StopReplication.LaunchesOfFlags | go/vt/vtctl/reparentutil/replication.go:262-271 | a task is flagged "must wait for" iff its alias is the alias to wait for |
| StopReplication.TabletsInOrderCover | go/vt/vtctl/reparentutil/replication.go:260-261 | every tablet of the map, ignored or not, is in allTablets |
| StopReplication.LaunchTablets | go/vt/vtctl/reparentutil/replication.go:255-273 | the loop over the tablet map yields allTablets, the launched tasks and numErrorsToWaitFor, equal to their reference definitions for the given iteration order |
| StopReplication.LaunchTabletsSummary | go/vt/vtctl/reparentutil/replication.go:255-273 | for any iteration order of the map: allTablets holds every tablet, one per key; one task per tablet that is not ignored; and one error to wait for iff the alias to wait for (the empty string when there is none) is a key of the map and not ignored |
| StopReplication.GoroutineCountMatchesLaunches | go/vt/vtctl/reparentutil/replication.go:275-290 | numGoRoutines = len(tabletMap) - len(ignored) equals the number of launched tasks iff every ignored alias is a key of the map, and is never larger; requiredSuccesses is numGoRoutines with waitForAllTablets and numGoRoutines - 1 without |
| StopReplication.FillStatusOf | go/vt/vtctl/reparentutil/replication.go:196-247 | no error iff replication was stopped, or the tablet was not a replica and its demotion succeeded. A stopped replica goes into the status map, with its backup flag taken from After, else Before, else false. A demoted tablet goes into the primary status map. Each such tablet is appended to the reachable tablets. A failed demotion or any other error wraps the cause with the alias and leaves the snapshot unchanged |
| StopReplication.ReplicationSnapshot.constructor | go/vt/vtctl/reparentutil/replication.go:185-190 | the snapshot starts with empty maps and no reachable tablets |
| StopReplication.ReplicationSnapshot.FillStatus | go/vt/vtctl/reparentutil/replication.go:207-246 | the in-place update of the snapshot and the reported error are those of FillStatusOf |
| StopReplication.ApplyOutcomes | go/vt/vtctl/reparentutil/replication.go:196-247 | applying the outcomes in order to a fresh snapshot yields FillAll's snapshot and recorded errors |
| StopReplication.FillAllKeys | go/vt/vtctl/reparentutil/replication.go:222-245 | after all outcomes, the status map and the backup state hold exactly the stopped tablets, and the primary status map exactly the demoted ones |
| StopReplication.FillAllCounts | go/vt/vtctl/reparentutil/replication.go:196-247 | every outcome is either one reachable tablet or one recorded error |
| StopReplication.StoppedAndDemotedDisjoint | go/vt/vtctl/reparentutil/replication.go:222-245 | with one outcome per tablet, no tablet is both stopped and demoted |
| StopReplication.FillAllReached | go/vt/vtctl/reparentutil/replication.go:222-245 | with one outcome per tablet, there is one reachable tablet per entry of the two status maps |
| StopReplication.FillAllReachable | go/vt/vtctl/reparentutil/replication.go:222-245 | the tablet of every entry of either status map is among the reachable tablets |
| StopReplication.FillAllInvariant | go/vt/vtctl/reparentutil/replication.go:196-247 | the snapshot keeps its invariant: the status maps are disjoint, backup state exists for exactly the stopped replicas, every map entry's tablet is a reachable tablet, and there is one reachable tablet per map entry |
| StopReplication.Verdict | go/vt/vtctl/reparentutil/replication.go:292-302 | with at most one error the snapshot is returned; with more, the call fails iff haveRevoked is false, and the error wraps the recorded errors, first one first |
| StopReplication.VerdictIgnoresPolicyWithOneError | go/vt/vtctl/reparentutil/replication.go:293-295 | with at most one error, the verdict does not depend on the durability policy |
| StopReplication.OneErrorMeansAllButOneReached | go/vt/vtctl/reparentutil/replication.go:275-295 | when the snapshot is returned because at most one error was recorded, all but at most one of the tablets that reported were reached and are in a status map |
| StopReplication.StopReplicationAndBuildStatusMaps | go/vt/vtctl/reparentutil/replication.go:167-303 | allTablets holds every tablet of the map; the error group is configured with the thresholds and with one error to wait for iff the tablet to wait for was launched; the result is the filled snapshot, or the verdict's error |
| RowMatching.FirstFree | go/vt/vttablet/tabletmanager/vdiff/workflow_differ.go:135-146 | the target a source row pairs with is the first not yet matched target equal to it; none iff no free target equals it |
| RowMatching.FilterLength | go/vt/vttablet/tabletmanager/vdiff/workflow_differ.go:154-177 | the kept and the dropped rows number the set flags and the clear flags |
| RowMatching.FilterPrefix | go/vt/vttablet/tabletmanager/vdiff/workflow_differ.go:156-163 | the unmatched rows of a prefix are a prefix of the unmatched rows, which is what stopping the loop early keeps |
| RowMatching.GreedyMatchUntried | go/vt/vttablet/tabletmanager/vdiff/workflow_differ.go:134 | source rows past the rows tried are never matched |
| RowMatching.GreedyMatchCount | go/vt/vttablet/tabletmanager/vdiff/workflow_differ.go:141-143 | the pair count equals the number of matched source rows and the number of matched target rows, and is at most the number of rows tried |
| RowMatching.GreedyMatchPairs | go/vt/vttablet/tabletmanager/vdiff/workflow_differ.go:140-143 | the matched source rows and the matched target rows are the same rows, as a multiset |
| RowMatching.GreedyMatchMaximal | go/vt/vttablet/tabletmanager/vdiff/workflow_differ.go:134-146 | every tried source row left unmatched has no equal target row left unmatched |
| RowMatching.FindMatches | go/vt/vttablet/tabletmanager/vdiff/workflow_differ.go:122-147 | the nested loops over the boolean arrays compute the greedy matching of the first maxRows source rows (none when maxRows is not positive), flags and count |
| RowMatching.MatchSourceRow | go/vt/vttablet/tabletmanager/vdiff/workflow_differ.go:135-146 | one pass of the inner loop takes the flags and the count from the greedy matching of the first i source rows to that of the first i + 1: source row i pairs with the first unmatched equal target row, if any |
| RowMatching.KeepUnmatched | go/vt/vttablet/tabletmanager/vdiff/workflow_differ.go:154-171 | the rebuilt list is the first maxRows unmatched rows, in their original order |
| WorkflowDiffer.ReferenceTablesReconciled | go/vt/vttablet/tabletmanager/vdiff/workflow_differ.go:84-116 | with mismatched rows nothing changes. Otherwise it fails iff a VSchema read fails, with the source's error first. Each side is cleared (count 0, empty list) iff its count is positive, its table is a reference table in its VSchema, and its count is a multiple of the matching rows. No other field changes |
| WorkflowDiffer.ReferenceTablesIdempotent | go/vt/vttablet/tabletmanager/vdiff/workflow_differ.go:84-116 | reconciling a second time with the same VSchemas changes nothing |
| WorkflowDiffer.ReferenceSidesIndependent | go/vt/vttablet/tabletmanager/vdiff/workflow_differ.go:98-113 | whether the source side is cleared does not depend on the target's VSchema, and the other way round |
| WorkflowDiffer.ReconcileReferenceTables | go/vt/vttablet/tabletmanager/vdiff/workflow_differ.go:84-116 | the in-place update and the returned error are those of ReferenceTablesReconciled; on error the report is unchanged |
| WorkflowDiffer.MaxRows | go/vt/vttablet/tabletmanager/vdiff/workflow_differ.go:126-129 | maxRows is the smaller of the source's extra-row count and maxExtraRowsToCompare |
| WorkflowDiffer.Trimmed | go/vt/vttablet/tabletmanager/vdiff/workflow_differ.go:185-192 | a sample list longer than a positive maximum becomes its first maximum - 1 entries; otherwise it is unchanged |
| WorkflowDiffer.ExtraRowsReconciled | go/vt/vttablet/tabletmanager/vdiff/workflow_differ.go:118-121 | when either side has no extra rows the report is left unchanged |
| WorkflowDiffer.ExtraRowsCounters | go/vt/vttablet/tabletmanager/vdiff/workflow_differ.go:149-192 | the pair count is at most min(max(maxRows, 0), target count); matching and processed rows grow by it and mismatched rows shrink by it. With pairs, each count becomes the number of its unmatched rows capped at maxRows, and the trim does not recompute it. Without pairs, only the trim changes the lists |
| WorkflowDiffer.ExtraRowsOnlyTried | go/vt/vttablet/tabletmanager/vdiff/workflow_differ.go:126-147 | only source rows below min(extra source rows, maxExtraRowsToCompare) can be matched |
| WorkflowDiffer.ExtraRowsRemovedAlike | go/vt/vttablet/tabletmanager/vdiff/workflow_differ.go:133-173 | the rows removed from the source and from the target are the same rows, as a multiset, one per pair |
| WorkflowDiffer.ExtraRowsMaximal | go/vt/vttablet/tabletmanager/vdiff/workflow_differ.go:133-147 | no tried source row left unmatched equals a target row left unmatched |
| WorkflowDiffer.ExtraRowsLists | go/vt/vttablet/tabletmanager/vdiff/workflow_differ.go:152-192 | with pairs, each new list is a prefix of its side's unmatched rows in original order, at most maxRows long, and no longer than a positive maxReportSampleRows after the trim |
| WorkflowDiffer.ReplaceExtraRows | go/vt/vttablet/tabletmanager/vdiff/workflow_differ.go:172-180 | the report gets the new lists, each count becomes its list's length, and the pairs move from mismatched to matching and processed rows |
| WorkflowDiffer.RemoveMatchedRows | go/vt/vttablet/tabletmanager/vdiff/workflow_differ.go:122-183 | the in-place matching and rebuilding give the report that MatchedRowsRemoved specifies: unchanged without pairs |
| WorkflowDiffer.TrimSamples | go/vt/vttablet/tabletmanager/vdiff/workflow_differ.go:185-192 | both sample lists are trimmed as Trimmed says and nothing else changes |
| WorkflowDiffer.DoReconcileExtraRows | go/vt/vttablet/tabletmanager/vdiff/workflow_differ.go:118-194 | the in-place update of the report equals ExtraRowsReconciled of its old value |
| WorkflowDiffer.ReconcileExtraRows | go/vt/vttablet/tabletmanager/vdiff/workflow_differ.go:75-82 | reference tables are reconciled first. Their error is returned with the report unchanged. Otherwise the extra rows of the updated report are reconciled |

## Left out

- Goroutines, the error channel, the mutex and the stop-replication timeout
  (go/vt/vtctl/reparentutil/replication.go:181-194, 271, 292): the outcomes
  that `ErrorGroup.Wait` consumed are an input sequence. A task that fills
  the snapshot after Wait returned is not modelled. The Wait semantics
  themselves are not modelled: `ErrorGroup` is not part of this model.
- The error recorder's aggregate error is modelled as `InsufficientReach`
  carrying every recorded error, first one first. `AllErrorRecorder` is not
  part of this model.
- Tablet-manager RPCs (`StopReplicationAndGetStatus`, `DemotePrimary`,
  `WaitForPosition`), event dispatch and logging: remote calls. Their results
  are inputs (`StopResult`, `DemoteResult`, the `waitForPosition` parameter).
- The SQL error classification that recognises "not a replica": it is the
  `NotReplica` case of the stop result.
- `SetReplicationSource` (go/vt/vtctl/reparentutil/replication.go:133-152):
  topology and durability-policy lookups.
- Position internals, `DecodePosition`, `ProtoToReplicationStatus` and
  `haveRevoked` are function-typed parameters or abstract values. A position
  is a GTID-set kind, a zero flag and opaque contents.
- Which alias an error of `FindPositionsOfAllCandidates` names depends on
  Go's map iteration order; the contracts say only that it is an offending
  alias.
- StopReplication.OneErrorMeansAllButOneReached,
  StopReplication.FillAllReached and
  StopReplication.StoppedAndDemotedDisjoint: assume one outcome per tablet,
  which holds because one task is launched per tablet.
- RowMatching.KeepUnmatched: requires maxRows >= 1. The list is only rebuilt
  when a pair was found, and then maxRows >= 1.
- WorkflowDiffer.ReconcileExtraRows: requires that the matching-row count is
  not zero wherever the reference-table modulus is taken; Go would panic
  otherwise.
- WorkflowDiffer.DoReconcileExtraRows, WorkflowDiffer.ReconcileExtraRows and
  the lemmas about ExtraRowsReconciled: when both sides have extra rows, they
  require each count to be non-negative and at most the length of its sample
  list. This is sufficient for Go not to panic, not necessary: a negative
  count makes `make` panic, but the loops index only the source rows below
  maxRows, the target rows not yet matched, and the rows before the rebuild
  stops at maxRows entries. So inputs such as a source count of 3 with two
  source samples, a target count of 1 with one target sample and
  maxExtraRowsToCompare = 1, or any counts longer than their lists with
  maxExtraRowsToCompare <= 0, run in Go without a panic but are not covered.
  The model reads the counted rows as a prefix of each list, which needs the
  stronger condition.
- Candidates.FindPositionsOfAllCandidates, Candidates.ConvertStatuses,
  Candidates.RelayLogWaitPosition and Candidates.WaitForRelayLogsToApply:
  require every status to carry an After state. Go dereferences `After`
  without a nil check (replication.go:55 passes it to
  `ProtoToReplicationStatus`, :310-314 reads its fields), so a nil `After`
  panics or depends on code that is not part of this model. `fillStatus`
  (:233-239) does tolerate a nil `After` when it picks the backup flag, so a
  snapshot it builds does not by itself meet this requirement. The model
  leaves a nil `After` out because Go gives it no defined result here.
- 64-bit integer overflow of the counters is not modelled: counts are
  unbounded integers.
- `RowDiff` pointers: the lists hold values, and `reflect.DeepEqual` is
  value equality on `RowDiff`. Nil entries are not modelled.
- The VSchema is reduced to the type of each table. Reading it from the
  topology server is an input `Result` per side.
- The rest of workflow_differ.go (`diffTable`, `diff`, `markIfCompleted`,
  `buildPlan`, `getTableLastPK`, `initVDiffTables`, `getSourceTopoServer`):
  database queries, SQL building, topology access and retry timers.
- go/vt/vttablet/tabletservermock/controller.go: a test double.
- go/vt/vttablet/tabletserver/querylogz_test.go: a test of an HTML status
  page.
