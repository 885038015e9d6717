/**
 * The reconciliation steps a workflow differ applies to a table's report
 * once the diff is done: reference tables whose extra rows are only shard
 * copies are cleared, then extra rows that appear on both sides are paired
 * off and counted as matching, and the sample lists are trimmed.
 *
 * The VSchema reads from the topology server are inputs: each is the result
 * the read returned.
 */
module WorkflowDiffer {
  import opened Wrappers
  import opened VDiffReport
  import opened RowMatching

  // ---------------------------------------------------------------------
  // reconcileReferenceTables
  // ---------------------------------------------------------------------

  /** The vindex table type of a reference table. */
  const TypeReference := "reference"

  /** A keyspace's VSchema, reduced to the type of each table it defines. */
  datatype VSchema = VSchema(tables: map<string, string>)

  /** An error returned by the topology server while reading a VSchema. */
  datatype TopoError = TopoError(message: string)

  predicate IsReferenceTable(vschema: VSchema, table: string)
  {
    table in vschema.tables && vschema.tables[table] == TypeReference
  }

  /**
   * The modulus by the matching-row count is taken only when there are no
   * mismatched rows, both VSchemas were read, and the side has extra rows of
   * a reference table; there it must not divide by zero.
   */
  predicate ModulusDefined(r: Report, source: Result<VSchema, TopoError>, target: Result<VSchema, TopoError>)
  {
    r.mismatchedRows == 0 && source.Success? && target.Success? ==>
      && (r.extraRowsSource > 0 && IsReferenceTable(source.value, r.tableName) ==> r.matchingRows != 0)
      && (r.extraRowsTarget > 0 && IsReferenceTable(target.value, r.tableName) ==> r.matchingRows != 0)
  }

  /**
   * Whether one side's extra rows are shard copies of a reference table: it
   * has extra rows, the table is a reference table in that side's VSchema,
   * and the extra rows are a whole multiple of the matching rows. For a
   * positive count, Go's truncated remainder is zero exactly when Dafny's is.
   */
  predicate ShardCopies(count: int, vschema: VSchema, table: string, matchingRows: int)
    requires count > 0 && IsReferenceTable(vschema, table) ==> matchingRows != 0
  {
    count > 0 && IsReferenceTable(vschema, table) && count % matchingRows == 0
  }

  /**
   * reconcileReferenceTables: with no mismatched rows, read both VSchemas
   * (an error from either is returned) and clear each side whose extra rows
   * are shard copies of a reference table.
   */
  function ReferenceTablesReconciled(r: Report, source: Result<VSchema, TopoError>, target: Result<VSchema, TopoError>): (res: Result<Report, TopoError>)
    requires ModulusDefined(r, source, target)
    ensures r.mismatchedRows != 0 ==> res == Success(r)
    ensures res.Failure? <==> r.mismatchedRows == 0 && (source.Failure? || target.Failure?)
    ensures res.Failure? ==> res.error == if source.Failure? then source.error else target.error
    ensures res.Success? ==>
              && res.value.(extraRowsSource := r.extraRowsSource, extraRowsSourceDiffs := r.extraRowsSourceDiffs,
                            extraRowsTarget := r.extraRowsTarget, extraRowsTargetDiffs := r.extraRowsTargetDiffs) == r
              && (res.value.extraRowsSource != r.extraRowsSource <==>
                    r.mismatchedRows == 0 && ShardCopies(r.extraRowsSource, source.value, r.tableName, r.matchingRows))
              && (res.value.extraRowsTarget != r.extraRowsTarget <==>
                    r.mismatchedRows == 0 && ShardCopies(r.extraRowsTarget, target.value, r.tableName, r.matchingRows))
              && (res.value.extraRowsSource == r.extraRowsSource ==> res.value.extraRowsSourceDiffs == r.extraRowsSourceDiffs)
              && (res.value.extraRowsSource != r.extraRowsSource ==> res.value.extraRowsSource == 0 && res.value.extraRowsSourceDiffs == [])
              && (res.value.extraRowsTarget == r.extraRowsTarget ==> res.value.extraRowsTargetDiffs == r.extraRowsTargetDiffs)
              && (res.value.extraRowsTarget != r.extraRowsTarget ==> res.value.extraRowsTarget == 0 && res.value.extraRowsTargetDiffs == [])
  {
    if r.mismatchedRows != 0 then Success(r)
    else if source.Failure? then Failure(source.error)
    else if target.Failure? then Failure(target.error)
    else
      var afterSource :=
        if ShardCopies(r.extraRowsSource, source.value, r.tableName, r.matchingRows)
        then r.(extraRowsSource := 0, extraRowsSourceDiffs := [])
        else r;
      var afterTarget :=
        if ShardCopies(r.extraRowsTarget, target.value, r.tableName, r.matchingRows)
        then afterSource.(extraRowsTarget := 0, extraRowsTargetDiffs := [])
        else afterSource;
      Success(afterTarget)
  }

  /** Reconciling reference tables a second time, with the same VSchemas, changes nothing. */
  lemma ReferenceTablesIdempotent(r: Report, source: Result<VSchema, TopoError>, target: Result<VSchema, TopoError>)
    requires ModulusDefined(r, source, target)
    requires ReferenceTablesReconciled(r, source, target).Success?
    ensures var once := ReferenceTablesReconciled(r, source, target).value;
            ModulusDefined(once, source, target) && ReferenceTablesReconciled(once, source, target) == Success(once)
  {
  }

  /** Whether the source side is cleared does not depend on the target VSchema, and the other way round. */
  lemma ReferenceSidesIndependent(r: Report, source: Result<VSchema, TopoError>, target: Result<VSchema, TopoError>,
                                  source': Result<VSchema, TopoError>, target': Result<VSchema, TopoError>)
    requires ModulusDefined(r, source, target) && ModulusDefined(r, source', target')
    requires ReferenceTablesReconciled(r, source, target).Success? && ReferenceTablesReconciled(r, source', target').Success?
    ensures source == source' ==>
              && ReferenceTablesReconciled(r, source, target).value.extraRowsSource == ReferenceTablesReconciled(r, source', target').value.extraRowsSource
              && ReferenceTablesReconciled(r, source, target).value.extraRowsSourceDiffs == ReferenceTablesReconciled(r, source', target').value.extraRowsSourceDiffs
    ensures target == target' ==>
              && ReferenceTablesReconciled(r, source, target).value.extraRowsTarget == ReferenceTablesReconciled(r, source', target').value.extraRowsTarget
              && ReferenceTablesReconciled(r, source, target).value.extraRowsTargetDiffs == ReferenceTablesReconciled(r, source', target').value.extraRowsTargetDiffs
  {
  }

  /** reconcileReferenceTables on the report object. */
  method ReconcileReferenceTables(dr: DiffReport, source: Result<VSchema, TopoError>, target: Result<VSchema, TopoError>)
    returns (err: Option<TopoError>)
    requires ModulusDefined(dr.Value(), source, target)
    modifies dr
    ensures var res := ReferenceTablesReconciled(old(dr.Value()), source, target);
            && (res.Failure? ==> err == Some(res.error) && dr.Value() == old(dr.Value()))
            && (res.Success? ==> err.None? && dr.Value() == res.value)
  {
    if dr.mismatchedRows == 0 {
      if source.Failure? {
        return Some(source.error);
      }
      if target.Failure? {
        return Some(target.error);
      }
      var srcvschema, tgtvschema := source.value, target.value;
      var sok := dr.tableName in srcvschema.tables;
      var tok := dr.tableName in tgtvschema.tables;
      if dr.extraRowsSource > 0 && sok && srcvschema.tables[dr.tableName] == TypeReference && dr.extraRowsSource % dr.matchingRows == 0 {
        dr.extraRowsSource := 0;
        dr.extraRowsSourceDiffs := [];
      }
      if dr.extraRowsTarget > 0 && tok && tgtvschema.tables[dr.tableName] == TypeReference && dr.extraRowsTarget % dr.matchingRows == 0 {
        dr.extraRowsTarget := 0;
        dr.extraRowsTargetDiffs := [];
      }
    }
    return None;
  }

  // ---------------------------------------------------------------------
  // doReconcileExtraRows
  // ---------------------------------------------------------------------

  predicate BothSidesExtra(r: Report)
  {
    r.extraRowsSource != 0 && r.extraRowsTarget != 0
  }

  /** When both sides have extra rows, each count is a valid length of its list of samples. */
  predicate ExtraRowsPrecondition(r: Report)
  {
    BothSidesExtra(r) ==>
      && 0 <= r.extraRowsSource <= |r.extraRowsSourceDiffs|
      && 0 <= r.extraRowsTarget <= |r.extraRowsTargetDiffs|
  }

  /** The source's extra rows that are counted. */
  function SourceRows(r: Report): seq<RowDiff>
    requires ExtraRowsPrecondition(r) && BothSidesExtra(r)
  {
    r.extraRowsSourceDiffs[..r.extraRowsSource]
  }

  /** The target's extra rows that are counted. */
  function TargetRows(r: Report): seq<RowDiff>
    requires ExtraRowsPrecondition(r) && BothSidesExtra(r)
  {
    r.extraRowsTargetDiffs[..r.extraRowsTarget]
  }

  /** maxRows: the source's extra-row count, capped by maxExtraRowsToCompare. */
  function MaxRows(extraRowsSource: int, maxExtraRowsToCompare: int): (m: int)
    ensures m <= extraRowsSource && m <= maxExtraRowsToCompare
    ensures m == extraRowsSource || m == maxExtraRowsToCompare
  {
    if extraRowsSource > maxExtraRowsToCompare then maxExtraRowsToCompare else extraRowsSource
  }

  /** The number of source rows the matching loop tries (none when maxRows is not positive). */
  function TriedRows(r: Report, maxExtraRowsToCompare: int): (n: nat)
    requires ExtraRowsPrecondition(r) && BothSidesExtra(r)
    ensures n <= r.extraRowsSource
  {
    var maxRows := MaxRows(r.extraRowsSource, maxExtraRowsToCompare);
    if maxRows < 0 then 0 else maxRows
  }

  /** The pairs found between the extra rows of the two sides. */
  function Matches(r: Report, maxExtraRowsToCompare: int): Matching
    requires ExtraRowsPrecondition(r) && BothSidesExtra(r)
  {
    GreedyMatch(SourceRows(r), TargetRows(r), TriedRows(r, maxExtraRowsToCompare))
  }

  /**
   * The trim of a sample list: longer than a positive maxReportSampleRows,
   * it keeps its first maxReportSampleRows - 1 entries.
   */
  function Trimmed(samples: seq<RowDiff>, maxReportSampleRows: int): (t: seq<RowDiff>)
    ensures |t| <= |samples| && t == samples[..|t|]
    ensures |samples| > maxReportSampleRows > 0 ==> |t| == maxReportSampleRows - 1
    ensures !(|samples| > maxReportSampleRows > 0) ==> t == samples
  {
    if |samples| > maxReportSampleRows && maxReportSampleRows > 0 then samples[..maxReportSampleRows - 1] else samples
  }

  /**
   * The report with both lists replaced, each count set to its list's
   * length, and `count` pairs moved from mismatched to matching rows.
   */
  function WithListsReplaced(r: Report, sourceDiffs: seq<RowDiff>, targetDiffs: seq<RowDiff>, count: int): Report
  {
    r.(extraRowsSourceDiffs := sourceDiffs, extraRowsTargetDiffs := targetDiffs,
       extraRowsSource := |sourceDiffs|, extraRowsTarget := |targetDiffs|,
       matchingRows := r.matchingRows + count,
       mismatchedRows := r.mismatchedRows - count,
       processedRows := r.processedRows + count)
  }

  /**
   * The matched rows removed: each list keeps at most maxRows of its
   * unmatched rows, each count becomes its list's length, and the matched
   * pairs move from mismatched to matching rows. With no pair, nothing changes.
   */
  function MatchedRowsRemoved(r: Report, maxExtraRowsToCompare: int): (res: Report)
    requires ExtraRowsPrecondition(r) && BothSidesExtra(r)
  {
    var m := Matches(r, maxExtraRowsToCompare);
    if m.count == 0 then r
    else
      var maxRows := MaxRows(r.extraRowsSource, maxExtraRowsToCompare);
      var sourceDiffs := Take(Filter(SourceRows(r), m.sourceMatched, false), maxRows);
      var targetDiffs := Take(Filter(TargetRows(r), m.targetMatched, false), maxRows);
      WithListsReplaced(r, sourceDiffs, targetDiffs, m.count)
  }

  /** Both sample lists trimmed; the counts are left as they are. */
  function SamplesTrimmed(r: Report, maxReportSampleRows: int): Report
  {
    r.(extraRowsSourceDiffs := Trimmed(r.extraRowsSourceDiffs, maxReportSampleRows),
       extraRowsTargetDiffs := Trimmed(r.extraRowsTargetDiffs, maxReportSampleRows))
  }

  /**
   * doReconcileExtraRows on report values: unless a side has no extra rows,
   * the matched rows are removed, then both sample lists are trimmed.
   */
  function ExtraRowsReconciled(r: Report, maxExtraRowsToCompare: int, maxReportSampleRows: int): (res: Report)
    requires ExtraRowsPrecondition(r)
    ensures !BothSidesExtra(r) ==> res == r
    ensures res.tableName == r.tableName
  {
    if !BothSidesExtra(r) then r
    else SamplesTrimmed(MatchedRowsRemoved(r, maxExtraRowsToCompare), maxReportSampleRows)
  }

  /**
   * The counters: the matched pairs, no more than the rows tried and the
   * target's extra rows, move from mismatched to matching and are added to
   * the processed rows; each side's count becomes its unmatched rows, capped
   * at maxRows, and is not recomputed after the trim.
   */
  lemma ExtraRowsCounters(r: Report, maxExtraRowsToCompare: int, maxReportSampleRows: int)
    requires ExtraRowsPrecondition(r) && BothSidesExtra(r)
    ensures var m := Matches(r, maxExtraRowsToCompare);
            var maxRows := MaxRows(r.extraRowsSource, maxExtraRowsToCompare);
            var res := ExtraRowsReconciled(r, maxExtraRowsToCompare, maxReportSampleRows);
            && m.count <= TriedRows(r, maxExtraRowsToCompare)
            && m.count <= r.extraRowsTarget
            && res.matchingRows == r.matchingRows + m.count
            && res.mismatchedRows == r.mismatchedRows - m.count
            && res.processedRows == r.processedRows + m.count
            && res.matchingRows + res.mismatchedRows == r.matchingRows + r.mismatchedRows
            && (m.count > 0 ==>
                  && res.extraRowsSource == (if r.extraRowsSource - m.count <= maxRows then r.extraRowsSource - m.count else maxRows)
                  && res.extraRowsTarget == (if r.extraRowsTarget - m.count <= maxRows then r.extraRowsTarget - m.count else maxRows))
            && (m.count == 0 ==>
                  && res.extraRowsSource == r.extraRowsSource
                  && res.extraRowsTarget == r.extraRowsTarget
                  && res.extraRowsSourceDiffs == Trimmed(r.extraRowsSourceDiffs, maxReportSampleRows)
                  && res.extraRowsTargetDiffs == Trimmed(r.extraRowsTargetDiffs, maxReportSampleRows))
  {
    var sources, targets, n := SourceRows(r), TargetRows(r), TriedRows(r, maxExtraRowsToCompare);
    var m := GreedyMatch(sources, targets, n);
    GreedyMatchCount(sources, targets, n);
    FilterLength(sources, m.sourceMatched);
    FilterLength(targets, m.targetMatched);
  }

  /** Only the source rows the matching loop tried can be matched. */
  lemma ExtraRowsOnlyTried(r: Report, maxExtraRowsToCompare: int)
    requires ExtraRowsPrecondition(r) && BothSidesExtra(r)
    ensures forall i | TriedRows(r, maxExtraRowsToCompare) <= i < r.extraRowsSource ::
              !Matches(r, maxExtraRowsToCompare).sourceMatched[i]
  {
    GreedyMatchUntried(SourceRows(r), TargetRows(r), TriedRows(r, maxExtraRowsToCompare));
  }

  /**
   * The rows removed from the source and from the target are the same rows,
   * as a multiset, one per matched pair.
   */
  lemma ExtraRowsRemovedAlike(r: Report, maxExtraRowsToCompare: int)
    requires ExtraRowsPrecondition(r) && BothSidesExtra(r)
    ensures var m := Matches(r, maxExtraRowsToCompare);
            && multiset(SourceRows(r)) - multiset(Filter(SourceRows(r), m.sourceMatched, false))
               == multiset(TargetRows(r)) - multiset(Filter(TargetRows(r), m.targetMatched, false))
            && |multiset(SourceRows(r)) - multiset(Filter(SourceRows(r), m.sourceMatched, false))| == m.count
  {
    var sources, targets, n := SourceRows(r), TargetRows(r), TriedRows(r, maxExtraRowsToCompare);
    var m := GreedyMatch(sources, targets, n);
    GreedyMatchPairs(sources, targets, n);
    GreedyMatchCount(sources, targets, n);
    FilterRemoved(sources, m.sourceMatched);
    FilterRemoved(targets, m.targetMatched);
    FilterLength(sources, m.sourceMatched);
  }

  /**
   * Nothing more could be matched: no tried source row left unmatched equals
   * a target row that is still unmatched.
   */
  lemma ExtraRowsMaximal(r: Report, maxExtraRowsToCompare: int)
    requires ExtraRowsPrecondition(r) && BothSidesExtra(r)
    ensures forall i, j | 0 <= i < TriedRows(r, maxExtraRowsToCompare) && 0 <= j < r.extraRowsTarget
                          && !Matches(r, maxExtraRowsToCompare).sourceMatched[i] ::
              Matches(r, maxExtraRowsToCompare).targetMatched[j] || TargetRows(r)[j] != SourceRows(r)[i]
  {
    GreedyMatchMaximal(SourceRows(r), TargetRows(r), TriedRows(r, maxExtraRowsToCompare));
  }

  /**
   * When rows were matched, each new list is the start of its side's
   * unmatched rows in their original order, at most maxRows long, and the
   * trim leaves it no longer than a positive maxReportSampleRows.
   */
  lemma ExtraRowsLists(r: Report, maxExtraRowsToCompare: int, maxReportSampleRows: int)
    requires ExtraRowsPrecondition(r) && BothSidesExtra(r)
    requires Matches(r, maxExtraRowsToCompare).count > 0
    ensures var m := Matches(r, maxExtraRowsToCompare);
            var maxRows := MaxRows(r.extraRowsSource, maxExtraRowsToCompare);
            var res := ExtraRowsReconciled(r, maxExtraRowsToCompare, maxReportSampleRows);
            var unmatchedSource := Filter(SourceRows(r), m.sourceMatched, false);
            var unmatchedTarget := Filter(TargetRows(r), m.targetMatched, false);
            && |res.extraRowsSourceDiffs| <= maxRows && res.extraRowsSourceDiffs == unmatchedSource[..|res.extraRowsSourceDiffs|]
            && |res.extraRowsTargetDiffs| <= maxRows && res.extraRowsTargetDiffs == unmatchedTarget[..|res.extraRowsTargetDiffs|]
            && (maxReportSampleRows > 0 ==>
                  |res.extraRowsSourceDiffs| <= maxReportSampleRows && |res.extraRowsTargetDiffs| <= maxReportSampleRows)
  {
  }

  /**
   * The tail of the matched-rows step on the report object: install the
   * rebuilt lists, set each count to its list's length and move the matched
   * pairs from mismatched to matching rows.
   */
  method ReplaceExtraRows(dr: DiffReport, newExtraRowsSourceDiffs: seq<RowDiff>, newExtraRowsTargetDiffs: seq<RowDiff>, matchedDiffs: int)
    modifies dr
    ensures dr.Value() == WithListsReplaced(old(dr.Value()), newExtraRowsSourceDiffs, newExtraRowsTargetDiffs, matchedDiffs)
  {
    dr.extraRowsSourceDiffs := newExtraRowsSourceDiffs;
    dr.extraRowsTargetDiffs := newExtraRowsTargetDiffs;

    // Update the counts
    dr.extraRowsSource := |dr.extraRowsSourceDiffs|;
    dr.extraRowsTarget := |dr.extraRowsTargetDiffs|;
    dr.matchingRows := dr.matchingRows + matchedDiffs;
    dr.mismatchedRows := dr.mismatchedRows - matchedDiffs;
    dr.processedRows := dr.processedRows + matchedDiffs;
  }

  /**
   * The first part of doReconcileExtraRows on the report object: find the
   * matching extra rows, then rebuild both lists and update the counters.
   */
  method RemoveMatchedRows(dr: DiffReport, maxExtraRowsToCompare: int)
    requires ExtraRowsPrecondition(dr.Value()) && BothSidesExtra(dr.Value())
    modifies dr
    ensures dr.Value() == MatchedRowsRemoved(old(dr.Value()), maxExtraRowsToCompare)
  {
    ghost var r := dr.Value();
    ghost var m := Matches(r, maxExtraRowsToCompare);
    var sources := dr.extraRowsSourceDiffs[..dr.extraRowsSource];
    var targets := dr.extraRowsTargetDiffs[..dr.extraRowsTarget];

    var maxRows := dr.extraRowsSource;
    if maxRows > maxExtraRowsToCompare {
      maxRows := maxExtraRowsToCompare;
    }
    assert sources == SourceRows(r) && targets == TargetRows(r);
    assert maxRows == MaxRows(r.extraRowsSource, maxExtraRowsToCompare);

    // Find the matching extra rows
    var matchedSourceDiffs, matchedTargetDiffs, matchedDiffs := FindMatches(sources, targets, maxRows);
    assert matchedDiffs == m.count;

    if matchedDiffs != 0 {
      GreedyMatchCount(sources, targets, TriedRows(r, maxExtraRowsToCompare));
      // Now remove the matching extra rows
      var newExtraRowsSourceDiffs := KeepUnmatched(sources, matchedSourceDiffs, maxRows);
      var newExtraRowsTargetDiffs := KeepUnmatched(targets, matchedTargetDiffs, maxRows);
      assert newExtraRowsSourceDiffs == Take(Filter(SourceRows(r), m.sourceMatched, false), maxRows);
      assert newExtraRowsTargetDiffs == Take(Filter(TargetRows(r), m.targetMatched, false), maxRows);
      ReplaceExtraRows(dr, newExtraRowsSourceDiffs, newExtraRowsTargetDiffs, matchedDiffs);
    }
  }

  /** The last part of doReconcileExtraRows on the report object: trim both sample lists. */
  method TrimSamples(dr: DiffReport, maxReportSampleRows: int)
    modifies dr
    ensures dr.Value() == SamplesTrimmed(old(dr.Value()), maxReportSampleRows)
  {
    if |dr.extraRowsSourceDiffs| > maxReportSampleRows && maxReportSampleRows > 0 {
      dr.extraRowsSourceDiffs := dr.extraRowsSourceDiffs[..maxReportSampleRows - 1];
    }
    if |dr.extraRowsTargetDiffs| > maxReportSampleRows && maxReportSampleRows > 0 {
      dr.extraRowsTargetDiffs := dr.extraRowsTargetDiffs[..maxReportSampleRows - 1];
    }
  }

  /** doReconcileExtraRows on the report object. */
  method DoReconcileExtraRows(dr: DiffReport, maxExtraRowsToCompare: int, maxReportSampleRows: int)
    requires ExtraRowsPrecondition(dr.Value())
    modifies dr
    ensures dr.Value() == ExtraRowsReconciled(old(dr.Value()), maxExtraRowsToCompare, maxReportSampleRows)
  {
    if dr.extraRowsSource == 0 || dr.extraRowsTarget == 0 {
      return;
    }
    RemoveMatchedRows(dr, maxExtraRowsToCompare);
    TrimSamples(dr, maxReportSampleRows);
  }

  // ---------------------------------------------------------------------
  // reconcileExtraRows
  // ---------------------------------------------------------------------

  /**
   * reconcileExtraRows: reference tables first; an error there is returned
   * and the extra rows are not reconciled.
   */
  method ReconcileExtraRows(dr: DiffReport, source: Result<VSchema, TopoError>, target: Result<VSchema, TopoError>,
                            maxExtraRowsToCompare: int, maxReportSampleRows: int)
    returns (err: Option<TopoError>)
    requires ModulusDefined(dr.Value(), source, target)
    requires ReferenceTablesReconciled(dr.Value(), source, target).Success? ==>
               ExtraRowsPrecondition(ReferenceTablesReconciled(dr.Value(), source, target).value)
    modifies dr
    ensures var res := ReferenceTablesReconciled(old(dr.Value()), source, target);
            && (res.Failure? ==> err == Some(res.error) && dr.Value() == old(dr.Value()))
            && (res.Success? ==> err.None? && dr.Value() == ExtraRowsReconciled(res.value, maxExtraRowsToCompare, maxReportSampleRows))
  {
    err := ReconcileReferenceTables(dr, source, target);
    if err.Some? {
      return err;
    }
    DoReconcileExtraRows(dr, maxExtraRowsToCompare, maxReportSampleRows);
  }
}
