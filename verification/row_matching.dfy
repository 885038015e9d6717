/**
 * Pairing the extra rows found only on the source with those found only on
 * the target: the greedy matching of doReconcileExtraRows, the rebuilding
 * of each side's list from its unmatched rows, and the reference definitions
 * both are proved against.
 */
module RowMatching {
  import opened Wrappers
  import opened VDiffReport

  // ---------------------------------------------------------------------
  // Reference definitions
  // ---------------------------------------------------------------------

  /** The rows whose flag equals `keep`, in their original order. */
  function Filter(rows: seq<RowDiff>, flags: seq<bool>, keep: bool): (r: seq<RowDiff>)
    requires |flags| == |rows|
    ensures |r| <= |rows|
  {
    if rows == [] then []
    else
      var n := |rows| - 1;
      Filter(rows[..n], flags[..n], keep) + if flags[n] == keep then [rows[n]] else []
  }

  /** The number of set flags. */
  function CountTrue(flags: seq<bool>): (c: nat)
    ensures c <= |flags|
  {
    if flags == [] then 0 else CountTrue(flags[..|flags| - 1]) + if flags[|flags| - 1] then 1 else 0
  }

  /** At most the first n entries. */
  function Take(s: seq<RowDiff>, n: int): (r: seq<RowDiff>)
    ensures |r| == if |s| <= n then |s| else if n < 0 then 0 else n
  {
    if |s| <= n then s else if n < 0 then [] else s[..n]
  }

  /**
   * The first target at or after `from` that is not yet taken and equals
   * the row, if there is one.
   */
  function FirstFree(row: RowDiff, targets: seq<RowDiff>, taken: seq<bool>, from: nat): (r: Option<nat>)
    requires |taken| == |targets| && from <= |targets|
    ensures r.Some? ==> from <= r.value < |targets| && !taken[r.value] && targets[r.value] == row
    ensures r.Some? ==> forall k | from <= k < r.value :: taken[k] || targets[k] != row
    ensures r.None? ==> forall k | from <= k < |targets| :: taken[k] || targets[k] != row
    decreases |targets| - from
  {
    if from == |targets| then None
    else if !taken[from] && targets[from] == row then Some(from)
    else FirstFree(row, targets, taken, from + 1)
  }

  /** Which source and target rows are matched, and how many pairs there are. */
  datatype Matching = Matching(sourceMatched: seq<bool>, targetMatched: seq<bool>, count: nat)

  /**
   * The greedy matching over the first n source rows: each in turn takes the
   * first free target row equal to it, if any.
   */
  function GreedyMatch(sources: seq<RowDiff>, targets: seq<RowDiff>, n: nat): (m: Matching)
    requires n <= |sources|
    ensures |m.sourceMatched| == |sources| && |m.targetMatched| == |targets|
  {
    if n == 0 then Matching(seq(|sources|, _ => false), seq(|targets|, _ => false), 0)
    else
      var m := GreedyMatch(sources, targets, n - 1);
      match FirstFree(sources[n - 1], targets, m.targetMatched, 0)
      case None => m
      case Some(j) => Matching(m.sourceMatched[n - 1 := true], m.targetMatched[j := true], m.count + 1)
  }

  // ---------------------------------------------------------------------
  // Properties of the reference definitions
  // ---------------------------------------------------------------------

  /** The kept and the dropped rows together are all rows. */
  lemma {:induction false} FilterLength(rows: seq<RowDiff>, flags: seq<bool>)
    requires |flags| == |rows|
    ensures |Filter(rows, flags, true)| == CountTrue(flags)
    ensures |Filter(rows, flags, false)| == |rows| - CountTrue(flags)
  {
    if rows != [] {
      var n := |rows| - 1;
      FilterLength(rows[..n], flags[..n]);
    }
  }

  /** Filtering a prefix gives a prefix of the filtered rows. */
  lemma {:induction false} FilterPrefix(rows: seq<RowDiff>, flags: seq<bool>, keep: bool, i: nat)
    requires |flags| == |rows| && i <= |rows|
    ensures var p := Filter(rows[..i], flags[..i], keep);
            |p| <= |Filter(rows, flags, keep)| && Filter(rows, flags, keep)[..|p|] == p
    decreases |rows|
  {
    if i < |rows| {
      var n := |rows| - 1;
      assert rows[..n][..i] == rows[..i] && flags[..n][..i] == flags[..i];
      FilterPrefix(rows[..n], flags[..n], keep, i);
    } else {
      assert rows[..i] == rows && flags[..i] == flags;
    }
  }

  /** The last row's contribution to the kept rows, as a multiset. */
  lemma FilterLastMultiset(rows: seq<RowDiff>, flags: seq<bool>, keep: bool)
    requires |flags| == |rows| && rows != []
    ensures var n := |rows| - 1;
            multiset(Filter(rows, flags, keep))
            == multiset(Filter(rows[..n], flags[..n], keep)) + if flags[n] == keep then multiset{rows[n]} else multiset{}
  {
  }

  /** Setting a clear flag adds its row to the kept rows. */
  lemma {:induction false} FilterMark(rows: seq<RowDiff>, flags: seq<bool>, k: nat)
    requires |flags| == |rows| && k < |rows| && !flags[k]
    ensures multiset(Filter(rows, flags[k := true], true)) == multiset(Filter(rows, flags, true)) + multiset{rows[k]}
  {
    var n := |rows| - 1;
    var marked := flags[k := true];
    FilterLastMultiset(rows, marked, true);
    FilterLastMultiset(rows, flags, true);
    if k == n {
      assert marked[..n] == flags[..n];
    } else {
      var last := if flags[n] then multiset{rows[n]} else multiset{};
      calc {
        multiset(Filter(rows, marked, true));
        multiset(Filter(rows[..n], marked[..n], true)) + last;
        { assert marked[..n] == flags[..n][k := true];
          FilterMark(rows[..n], flags[..n], k); }
        multiset(Filter(rows[..n], flags[..n], true)) + multiset{rows[k]} + last;
        multiset(Filter(rows, flags, true)) + multiset{rows[k]};
      }
    }
  }

  /** Setting a clear flag adds one to the count. */
  lemma {:induction false} CountTrueMark(flags: seq<bool>, k: nat)
    requires k < |flags| && !flags[k]
    ensures CountTrue(flags[k := true]) == CountTrue(flags) + 1
  {
    var n := |flags| - 1;
    var marked := flags[k := true];
    if k == n {
      assert marked[..n] == flags[..n];
    } else {
      assert marked[..n] == flags[..n][k := true];
      CountTrueMark(flags[..n], k);
    }
  }

  /** The kept and the dropped rows together are all rows, as a multiset. */
  lemma {:induction false} FilterSplit(rows: seq<RowDiff>, flags: seq<bool>)
    requires |flags| == |rows|
    ensures multiset(Filter(rows, flags, true)) + multiset(Filter(rows, flags, false)) == multiset(rows)
  {
    if rows != [] {
      var n := |rows| - 1;
      FilterSplit(rows[..n], flags[..n]);
      assert rows[..n] + [rows[n]] == rows;
    }
  }

  /** Removing the dropped rows from all rows leaves the kept rows. */
  lemma FilterRemoved(rows: seq<RowDiff>, flags: seq<bool>)
    requires |flags| == |rows|
    ensures multiset(rows) - multiset(Filter(rows, flags, false)) == multiset(Filter(rows, flags, true))
  {
    FilterSplit(rows, flags);
  }

  /** With no flag set, nothing is kept and nothing is dropped. */
  lemma {:induction false} FilterNone(rows: seq<RowDiff>, flags: seq<bool>)
    requires |flags| == |rows| && forall i | 0 <= i < |flags| :: !flags[i]
    ensures Filter(rows, flags, true) == [] && Filter(rows, flags, false) == rows && CountTrue(flags) == 0
  {
    if rows != [] {
      var n := |rows| - 1;
      FilterNone(rows[..n], flags[..n]);
      assert rows[..n] + [rows[n]] == rows;
    }
  }

  /** The greedy matching leaves the source rows it did not try unmatched. */
  lemma {:induction false} GreedyMatchUntried(sources: seq<RowDiff>, targets: seq<RowDiff>, n: nat)
    requires n <= |sources|
    ensures forall i | n <= i < |sources| :: !GreedyMatch(sources, targets, n).sourceMatched[i]
  {
    if n > 0 {
      GreedyMatchUntried(sources, targets, n - 1);
    }
  }

  /**
   * The greedy matching counts its pairs on both sides and matches no more
   * rows than it tried.
   */
  lemma {:induction false} GreedyMatchCount(sources: seq<RowDiff>, targets: seq<RowDiff>, n: nat)
    requires n <= |sources|
    ensures GreedyMatch(sources, targets, n).count == CountTrue(GreedyMatch(sources, targets, n).sourceMatched)
    ensures GreedyMatch(sources, targets, n).count == CountTrue(GreedyMatch(sources, targets, n).targetMatched)
    ensures GreedyMatch(sources, targets, n).count <= n
  {
    var m := GreedyMatch(sources, targets, n);
    if n == 0 {
      FilterNone(sources, m.sourceMatched);
      FilterNone(targets, m.targetMatched);
    } else {
      var prev := GreedyMatch(sources, targets, n - 1);
      GreedyMatchCount(sources, targets, n - 1);
      GreedyMatchUntried(sources, targets, n - 1);
      var j := FirstFree(sources[n - 1], targets, prev.targetMatched, 0);
      if j.Some? {
        CountTrueMark(prev.sourceMatched, n - 1);
        CountTrueMark(prev.targetMatched, j.value);
      }
    }
  }

  /** The matched source rows and the matched target rows are the same rows, as a multiset. */
  lemma {:induction false} GreedyMatchPairs(sources: seq<RowDiff>, targets: seq<RowDiff>, n: nat)
    requires n <= |sources|
    ensures var m := GreedyMatch(sources, targets, n);
            multiset(Filter(sources, m.sourceMatched, true)) == multiset(Filter(targets, m.targetMatched, true))
  {
    var m := GreedyMatch(sources, targets, n);
    if n == 0 {
      FilterNone(sources, m.sourceMatched);
      FilterNone(targets, m.targetMatched);
    } else {
      var prev := GreedyMatch(sources, targets, n - 1);
      GreedyMatchPairs(sources, targets, n - 1);
      GreedyMatchUntried(sources, targets, n - 1);
      var j := FirstFree(sources[n - 1], targets, prev.targetMatched, 0);
      if j.Some? {
        FilterMark(sources, prev.sourceMatched, n - 1);
        FilterMark(targets, prev.targetMatched, j.value);
      }
    }
  }

  /**
   * Nothing more could be matched: every tried source row left unmatched has
   * no equal target row that is still free.
   */
  lemma {:induction false} GreedyMatchMaximal(sources: seq<RowDiff>, targets: seq<RowDiff>, n: nat)
    requires n <= |sources|
    ensures forall i, j | 0 <= i < n && 0 <= j < |targets| && !GreedyMatch(sources, targets, n).sourceMatched[i] ::
              GreedyMatch(sources, targets, n).targetMatched[j] || targets[j] != sources[i]
  {
    if n > 0 {
      var prev := GreedyMatch(sources, targets, n - 1);
      var m := GreedyMatch(sources, targets, n);
      GreedyMatchMaximal(sources, targets, n - 1);
      var j := FirstFree(sources[n - 1], targets, prev.targetMatched, 0);
      if j.Some? {
        assert forall k | 0 <= k < |targets| && prev.targetMatched[k] :: m.targetMatched[k];
        assert forall i | 0 <= i < n - 1 :: m.sourceMatched[i] == prev.sourceMatched[i];
      }
    }
  }

  // ---------------------------------------------------------------------
  // The loops of doReconcileExtraRows
  // ---------------------------------------------------------------------

  /**
   * The nested loops that find matching extra rows: each of the first
   * maxRows source rows is compared with the target rows in order, skipping
   * those already matched, and pairs with the first equal one.
   */
  method FindMatches(sources: seq<RowDiff>, targets: seq<RowDiff>, maxRows: int)
    returns (matchedSourceDiffs: array<bool>, matchedTargetDiffs: array<bool>, matchedDiffs: int)
    requires maxRows <= |sources|
    ensures fresh(matchedSourceDiffs) && fresh(matchedTargetDiffs)
    ensures var m := GreedyMatch(sources, targets, if maxRows < 0 then 0 else maxRows);
            && matchedSourceDiffs[..] == m.sourceMatched
            && matchedTargetDiffs[..] == m.targetMatched
            && matchedDiffs == m.count
  {
    matchedSourceDiffs := new bool[|sources|](_ => false);
    matchedTargetDiffs := new bool[|targets|](_ => false);
    matchedDiffs := 0;
    var i := 0;
    while i < maxRows
      invariant 0 <= i <= if maxRows < 0 then 0 else maxRows
      invariant matchedSourceDiffs[..] == GreedyMatch(sources, targets, i).sourceMatched
      invariant matchedTargetDiffs[..] == GreedyMatch(sources, targets, i).targetMatched
      invariant matchedDiffs == GreedyMatch(sources, targets, i).count
    {
      matchedDiffs := MatchSourceRow(sources, targets, i, matchedSourceDiffs, matchedTargetDiffs, matchedDiffs);
      i := i + 1;
    }
    assert i == if maxRows < 0 then 0 else maxRows;
  }

  /**
   * One pass of the inner loop: source row i is compared with the target
   * rows in order, skipping those already matched, and pairs with the first
   * equal one; the flags and the count move from the matching of the first i
   * source rows to that of the first i + 1.
   */
  method MatchSourceRow(sources: seq<RowDiff>, targets: seq<RowDiff>, i: nat,
                        matchedSourceDiffs: array<bool>, matchedTargetDiffs: array<bool>, matchedDiffs: int)
    returns (newMatchedDiffs: int)
    requires i < |sources| && matchedSourceDiffs != matchedTargetDiffs
    requires matchedSourceDiffs[..] == GreedyMatch(sources, targets, i).sourceMatched
    requires matchedTargetDiffs[..] == GreedyMatch(sources, targets, i).targetMatched
    requires matchedDiffs == GreedyMatch(sources, targets, i).count
    modifies matchedSourceDiffs, matchedTargetDiffs
    ensures matchedSourceDiffs[..] == GreedyMatch(sources, targets, i + 1).sourceMatched
    ensures matchedTargetDiffs[..] == GreedyMatch(sources, targets, i + 1).targetMatched
    ensures newMatchedDiffs == GreedyMatch(sources, targets, i + 1).count
  {
    ghost var before := GreedyMatch(sources, targets, i);
    ghost var taken := before.targetMatched;
    ghost var after := GreedyMatch(sources, targets, i + 1);
    newMatchedDiffs := matchedDiffs;
    for j := 0 to |targets|
      invariant matchedSourceDiffs[..] == before.sourceMatched
      invariant matchedTargetDiffs[..] == taken
      invariant newMatchedDiffs == before.count
      invariant FirstFree(sources[i], targets, taken, 0) == FirstFree(sources[i], targets, taken, j)
    {
      if matchedTargetDiffs[j] {
        continue;
      }
      if sources[i] == targets[j] {
        assert after == Matching(before.sourceMatched[i := true], taken[j := true], before.count + 1);
        matchedSourceDiffs[i] := true;
        matchedTargetDiffs[j] := true;
        newMatchedDiffs := newMatchedDiffs + 1;
        return;
      }
    }
  }

  /**
   * The loop that rebuilds one side's list: the unmatched rows in order,
   * stopping as soon as the list holds maxRows entries.
   */
  method KeepUnmatched(rows: seq<RowDiff>, matched: array<bool>, maxRows: int) returns (kept: seq<RowDiff>)
    requires matched.Length == |rows| && maxRows >= 1
    ensures kept == Take(Filter(rows, matched[..], false), maxRows)
  {
    kept := [];
    for i := 0 to |rows|
      invariant kept == Filter(rows[..i], matched[..i], false)
      invariant |kept| < maxRows
    {
      assert rows[..i + 1][..i] == rows[..i] && matched[..i + 1][..i] == matched[..i];
      if !matched[i] {
        kept := kept + [rows[i]];
      }
      if |kept| >= maxRows {
        FilterPrefix(rows, matched[..], false, i + 1);
        return;
      }
    }
    assert rows[..|rows|] == rows && matched[..|rows|] == matched[..];
  }
}
