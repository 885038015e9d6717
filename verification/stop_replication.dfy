/**
 * The sequential decision core of stopReplicationAndBuildStatusMaps: which
 * tablets are contacted, the error group's thresholds, how each tablet's
 * outcome is classified into the replication snapshot, and the final verdict.
 *
 * The goroutines, channel, mutex and timeout are not modelled. The outcomes
 * the error group's Wait consumed are an input sequence, in the order their
 * updates took the mutex; the errors Wait recorded are theirs, in that order.
 * The durability policy's revoke check is the parameter `haveRevoked`.
 */
module StopReplication {
  import opened Wrappers
  import opened ReplicationData

  /** What DemotePrimary returned. */
  datatype DemoteResult = Demoted(primaryStatus: PrimaryStatus) | DemoteError(err: Error)

  /**
   * What StopReplicationAndGetStatus returned: a status, the SQL error
   * "not a replica" (after which the tablet was demoted), or any other error.
   */
  datatype StopResult =
    | Stopped(status: StopReplicationStatus)
    | NotReplica(demote: DemoteResult)
    | StopError(err: Error)

  /** The outcome of the task launched for one tablet. */
  datatype TabletOutcome = TabletOutcome(alias: string, result: StopResult)

  /** A launched task: its tablet alias and whether the error group must wait for it. */
  datatype Launch = Launch(alias: string, mustWaitFor: bool)

  /** The configuration handed to the error group. */
  datatype ErrorGroup = ErrorGroup(
    numGoroutines: int,
    numRequiredSuccesses: int,
    numAllowedErrors: int,
    numErrorsToWaitFor: int)

  /** The value of a replication snapshot. */
  datatype Snapshot = Snapshot(
    statusMap: map<string, StopReplicationStatus>,
    primaryStatusMap: map<string, PrimaryStatus>,
    reachableTablets: seq<Tablet>,
    tabletsBackupState: map<string, bool>)

  const EmptySnapshot := Snapshot(map[], map[], [], map[])

  /** The snapshot after one tablet's update, and the error the task reports (None on success). */
  datatype Filled = Filled(snapshot: Snapshot, err: Option<Error>)

  /** The snapshot and the errors recorded after a sequence of outcomes. */
  datatype Collected = Collected(snapshot: Snapshot, errors: seq<Error>)

  // ---------------------------------------------------------------------
  // Which tablets are contacted, and the thresholds
  // ---------------------------------------------------------------------

  /** The alias string of the tablet to wait for; the empty string when there is none. */
  function AliasToWaitFor(tabletToWaitFor: Option<string>): string
  {
    if tabletToWaitFor.Some? then tabletToWaitFor.value else ""
  }

  /** The aliases listed in a sequence. */
  function Elements(order: seq<string>): set<string>
  {
    set i | 0 <= i < |order| :: order[i]
  }

  predicate Distinct(order: seq<string>)
  {
    forall i, j | 0 <= i < j < |order| :: order[i] != order[j]
  }

  /** One iteration order of Go's range over the tablet map: every key exactly once. */
  predicate IterationOrder(tabletMap: map<string, Tablet>, order: seq<string>)
  {
    Distinct(order) && Elements(order) == tabletMap.Keys
  }

  predicate AllKeys(tabletMap: map<string, Tablet>, order: seq<string>)
  {
    forall i | 0 <= i < |order| :: order[i] in tabletMap
  }

  /** The tablets of the aliases, in order. */
  function TabletsInOrder(tabletMap: map<string, Tablet>, order: seq<string>): (tablets: seq<Tablet>)
    requires AllKeys(tabletMap, order)
    ensures |tablets| == |order|
    ensures forall i | 0 <= i < |order| :: tablets[i] == tabletMap[order[i]]
  {
    if order == [] then [] else TabletsInOrder(tabletMap, order[..|order| - 1]) + [tabletMap[order[|order| - 1]]]
  }

  /** The tasks launched for the aliases, in order: one per alias that is not ignored. */
  function LaunchesOf(order: seq<string>, ignoredTablets: set<string>, aliasToWaitFor: string): seq<Launch>
  {
    if order == [] then []
    else
      var rest := LaunchesOf(order[..|order| - 1], ignoredTablets, aliasToWaitFor);
      var alias := order[|order| - 1];
      if alias in ignoredTablets then rest else rest + [Launch(alias, alias == aliasToWaitFor)]
  }

  /** The number of launched tasks the error group must wait for. */
  function MustWaitCount(launched: seq<Launch>): nat
  {
    if launched == [] then 0
    else MustWaitCount(launched[..|launched| - 1]) + if launched[|launched| - 1].mustWaitFor then 1 else 0
  }

  /** The aliases of the launched tasks. */
  function LaunchedAliases(launched: seq<Launch>): set<string>
  {
    set i | 0 <= i < |launched| :: launched[i].alias
  }

  predicate DistinctAliases(launched: seq<Launch>)
  {
    forall i, j | 0 <= i < j < |launched| :: launched[i].alias != launched[j].alias
  }

  /** Splitting off the last alias of an order. */
  lemma ElementsOfLast(order: seq<string>)
    requires order != []
    ensures Elements(order) == Elements(order[..|order| - 1]) + {order[|order| - 1]}
  {
    var prefix := order[..|order| - 1];
    assert forall i | 0 <= i < |prefix| :: prefix[i] == order[i];
  }

  /** Appending a launch adds its alias to the launched aliases. */
  lemma LaunchedAliasesAppend(launched: seq<Launch>, launch: Launch)
    ensures LaunchedAliases(launched + [launch]) == LaunchedAliases(launched) + {launch.alias}
  {
    var extended := launched + [launch];
    assert forall i | 0 <= i < |launched| :: extended[i] == launched[i];
    assert extended[|launched|] == launch;
  }

  /** A task is launched for exactly the aliases that are not ignored. */
  lemma {:induction false} LaunchesOfAliases(order: seq<string>, ignoredTablets: set<string>, aliasToWaitFor: string)
    ensures LaunchedAliases(LaunchesOf(order, ignoredTablets, aliasToWaitFor)) == Elements(order) - ignoredTablets
  {
    if order != [] {
      var prefix := order[..|order| - 1];
      var alias := order[|order| - 1];
      LaunchesOfAliases(prefix, ignoredTablets, aliasToWaitFor);
      ElementsOfLast(order);
      var rest := LaunchesOf(prefix, ignoredTablets, aliasToWaitFor);
      if alias !in ignoredTablets {
        LaunchedAliasesAppend(rest, Launch(alias, alias == aliasToWaitFor));
      }
    }
  }

  /** Without repeats, the last alias of an order is new, and the aliases not ignored grow by it unless it is ignored. */
  lemma LastAliasIsNew(order: seq<string>, ignoredTablets: set<string>)
    requires Distinct(order) && order != []
    ensures var prefix, alias := order[..|order| - 1], order[|order| - 1];
            && Distinct(prefix)
            && alias !in Elements(prefix)
            && Elements(order) - ignoredTablets == (Elements(prefix) - ignoredTablets) + (if alias in ignoredTablets then {} else {alias})
  {
    ElementsOfLast(order);
  }

  /** Over an order without repeats, the launched tasks have distinct aliases. */
  lemma {:induction false} LaunchesOfDistinct(order: seq<string>, ignoredTablets: set<string>, aliasToWaitFor: string)
    requires Distinct(order)
    ensures DistinctAliases(LaunchesOf(order, ignoredTablets, aliasToWaitFor))
  {
    if order != [] {
      var prefix := order[..|order| - 1];
      var alias := order[|order| - 1];
      LastAliasIsNew(order, ignoredTablets);
      LaunchesOfDistinct(prefix, ignoredTablets, aliasToWaitFor);
      LaunchesOfAliases(prefix, ignoredTablets, aliasToWaitFor);
      var rest := LaunchesOf(prefix, ignoredTablets, aliasToWaitFor);
      if alias !in ignoredTablets {
        assert alias !in LaunchedAliases(rest);
        assert forall i | 0 <= i < |rest| :: rest[i].alias != alias;
      }
    }
  }

  /**
   * Over an order without repeats, one task is launched per alias that is
   * not ignored, and one is flagged exactly when the alias to wait for is
   * among them.
   */
  lemma {:induction false} LaunchesOfCount(order: seq<string>, ignoredTablets: set<string>, aliasToWaitFor: string)
    requires Distinct(order)
    ensures |LaunchesOf(order, ignoredTablets, aliasToWaitFor)| == |Elements(order) - ignoredTablets|
    ensures MustWaitCount(LaunchesOf(order, ignoredTablets, aliasToWaitFor)) ==
              if aliasToWaitFor in Elements(order) - ignoredTablets then 1 else 0
  {
    if order != [] {
      var prefix := order[..|order| - 1];
      var alias := order[|order| - 1];
      LastAliasIsNew(order, ignoredTablets);
      LaunchesOfCount(prefix, ignoredTablets, aliasToWaitFor);
      var rest := LaunchesOf(prefix, ignoredTablets, aliasToWaitFor);
      if alias !in ignoredTablets {
        var launched := rest + [Launch(alias, alias == aliasToWaitFor)];
        assert launched[..|launched| - 1] == rest;
      }
    }
  }

  /** Every launched task is flagged exactly when it is the tablet to wait for. */
  lemma {:induction false} LaunchesOfFlags(order: seq<string>, ignoredTablets: set<string>, aliasToWaitFor: string)
    ensures forall i | 0 <= i < |LaunchesOf(order, ignoredTablets, aliasToWaitFor)| ::
              LaunchesOf(order, ignoredTablets, aliasToWaitFor)[i].mustWaitFor
              <==> LaunchesOf(order, ignoredTablets, aliasToWaitFor)[i].alias == aliasToWaitFor
  {
    if order != [] {
      LaunchesOfFlags(order[..|order| - 1], ignoredTablets, aliasToWaitFor);
    }
  }

  /** The aliases of an iteration order are keys of the map. */
  lemma IterationOrderKeys(tabletMap: map<string, Tablet>, order: seq<string>)
    requires IterationOrder(tabletMap, order)
    ensures AllKeys(tabletMap, order)
  {
    assert forall i | 0 <= i < |order| :: order[i] in Elements(order);
  }

  /** A sequence without repeats has as many elements as entries. */
  lemma {:induction false} DistinctElementsCount(order: seq<string>)
    requires Distinct(order)
    ensures |Elements(order)| == |order|
  {
    if order != [] {
      var prefix := order[..|order| - 1];
      assert Distinct(prefix);
      DistinctElementsCount(prefix);
      ElementsOfLast(order);
      assert order[|order| - 1] !in Elements(prefix);
    }
  }

  /** Every tablet of the map is among the tablets of an iteration order. */
  lemma TabletsInOrderCover(tabletMap: map<string, Tablet>, order: seq<string>)
    requires IterationOrder(tabletMap, order) && AllKeys(tabletMap, order)
    ensures forall alias | alias in tabletMap :: tabletMap[alias] in TabletsInOrder(tabletMap, order)
  {
    var allTablets := TabletsInOrder(tabletMap, order);
    forall alias | alias in tabletMap
      ensures tabletMap[alias] in allTablets
    {
      var i :| 0 <= i < |order| && order[i] == alias;
      assert allTablets[i] == tabletMap[alias];
    }
  }

  /** Visiting one more alias of the order appends its tablet. */
  lemma TabletsInOrderStep(tabletMap: map<string, Tablet>, order: seq<string>, k: nat)
    requires AllKeys(tabletMap, order) && k < |order|
    ensures AllKeys(tabletMap, order[..k]) && AllKeys(tabletMap, order[..k + 1])
    ensures TabletsInOrder(tabletMap, order[..k + 1]) == TabletsInOrder(tabletMap, order[..k]) + [tabletMap[order[k]]]
  {
    assert order[..k + 1][..k] == order[..k];
  }

  /** Visiting one more alias of the order launches a task for it unless it is ignored. */
  lemma LaunchesOfStep(order: seq<string>, ignoredTablets: set<string>, aliasToWaitFor: string, k: nat)
    requires k < |order|
    ensures LaunchesOf(order[..k + 1], ignoredTablets, aliasToWaitFor)
            == LaunchesOf(order[..k], ignoredTablets, aliasToWaitFor)
               + if order[k] in ignoredTablets then [] else [Launch(order[k], order[k] == aliasToWaitFor)]
  {
    assert order[..k + 1][..k] == order[..k];
  }

  /** Appending a task adds one to the count to wait for when it is flagged. */
  lemma MustWaitCountAppend(launched: seq<Launch>, launch: Launch)
    ensures MustWaitCount(launched + [launch]) == MustWaitCount(launched) + if launch.mustWaitFor then 1 else 0
  {
    assert (launched + [launch])[..|launched|] == launched;
  }

  /**
   * The loop over the tablet map, in one iteration order: every tablet goes
   * into allTablets, and a task is launched for every tablet that is not
   * ignored, flagged "must wait for" when its alias is the one to wait for.
   */
  method LaunchTablets(tabletMap: map<string, Tablet>, ignoredTablets: set<string>, tabletToWaitFor: Option<string>, order: seq<string>)
    returns (allTablets: seq<Tablet>, launched: seq<Launch>, numErrorsToWaitFor: int)
    requires IterationOrder(tabletMap, order)
    ensures AllKeys(tabletMap, order) && allTablets == TabletsInOrder(tabletMap, order)
    ensures launched == LaunchesOf(order, ignoredTablets, AliasToWaitFor(tabletToWaitFor))
    ensures numErrorsToWaitFor == MustWaitCount(launched)
  {
    var tabletAliasToWaitFor := "";
    if tabletToWaitFor.Some? {
      tabletAliasToWaitFor := tabletToWaitFor.value;
    }
    IterationOrderKeys(tabletMap, order);
    allTablets, launched, numErrorsToWaitFor := [], [], 0;
    for k := 0 to |order|
      invariant AllKeys(tabletMap, order[..k])
      invariant allTablets == TabletsInOrder(tabletMap, order[..k])
      invariant launched == LaunchesOf(order[..k], ignoredTablets, tabletAliasToWaitFor)
      invariant numErrorsToWaitFor == MustWaitCount(launched)
    {
      var alias := order[k];
      TabletsInOrderStep(tabletMap, order, k);
      LaunchesOfStep(order, ignoredTablets, tabletAliasToWaitFor, k);
      allTablets := allTablets + [tabletMap[alias]];
      if alias !in ignoredTablets {
        var mustWaitFor := tabletAliasToWaitFor == alias;
        if mustWaitFor {
          numErrorsToWaitFor := numErrorsToWaitFor + 1;
        }
        MustWaitCountAppend(launched, Launch(alias, mustWaitFor));
        launched := launched + [Launch(alias, mustWaitFor)];
      }
    }
    assert order[..|order|] == order;
  }

  /**
   * What the loop leaves for the error group: every tablet in allTablets, one
   * task per tablet that is not ignored, and one error to wait for exactly
   * when the tablet to wait for is in the map and not ignored.
   */
  lemma LaunchTabletsSummary(tabletMap: map<string, Tablet>, ignoredTablets: set<string>, aliasToWaitFor: string, order: seq<string>)
    requires IterationOrder(tabletMap, order)
    ensures AllKeys(tabletMap, order)
    ensures var allTablets := TabletsInOrder(tabletMap, order);
            && |allTablets| == |tabletMap|
            && (forall alias | alias in tabletMap :: tabletMap[alias] in allTablets)
    ensures var launched := LaunchesOf(order, ignoredTablets, aliasToWaitFor);
            && DistinctAliases(launched)
            && LaunchedAliases(launched) == tabletMap.Keys - ignoredTablets
            && |launched| == |tabletMap.Keys - ignoredTablets|
            && (forall i | 0 <= i < |launched| :: launched[i].mustWaitFor <==> launched[i].alias == aliasToWaitFor)
            && MustWaitCount(launched) == if aliasToWaitFor in tabletMap.Keys - ignoredTablets then 1 else 0
  {
    IterationOrderKeys(tabletMap, order);
    LaunchesOfAliases(order, ignoredTablets, aliasToWaitFor);
    LaunchesOfDistinct(order, ignoredTablets, aliasToWaitFor);
    LaunchesOfCount(order, ignoredTablets, aliasToWaitFor);
    LaunchesOfFlags(order, ignoredTablets, aliasToWaitFor);
    DistinctElementsCount(order);
    TabletsInOrderCover(tabletMap, order);
  }

  /**
   * The error group's configuration: one goroutine per tablet that is not
   * ignored, counted as the map's size minus the ignored set's size; all of
   * them must succeed when waitForAllTablets is set, all but one otherwise;
   * as many errors are allowed as there are tablets.
   */
  function ErrorGroupFor(tabletMap: map<string, Tablet>, ignoredTablets: set<string>, waitForAllTablets: bool, numErrorsToWaitFor: int): ErrorGroup
  {
    var numGoRoutines := |tabletMap| - |ignoredTablets|;
    ErrorGroup(
      numGoRoutines,
      if waitForAllTablets then numGoRoutines else numGoRoutines - 1,
      |tabletMap|,
      numErrorsToWaitFor)
  }

  /**
   * The goroutine count the error group is told matches the number of tasks
   * launched exactly when every ignored alias is a key of the tablet map;
   * otherwise it is smaller, and so is the success threshold.
   */
  lemma {:induction false} GoroutineCountMatchesLaunches(tabletMap: map<string, Tablet>, ignoredTablets: set<string>, waitForAllTablets: bool, numErrorsToWaitFor: int)
    ensures var group := ErrorGroupFor(tabletMap, ignoredTablets, waitForAllTablets, numErrorsToWaitFor);
            && (group.numGoroutines == |tabletMap.Keys - ignoredTablets| <==> ignoredTablets <= tabletMap.Keys)
            && group.numGoroutines <= |tabletMap.Keys - ignoredTablets|
            && group.numRequiredSuccesses == (if waitForAllTablets then group.numGoroutines else group.numGoroutines - 1)
  {
    var keys := tabletMap.Keys;
    SizeBySplit(keys, ignoredTablets);
    SizeBySplit(ignoredTablets, keys);
    assert keys * ignoredTablets == ignoredTablets * keys;
    if ignoredTablets <= keys {
      assert ignoredTablets - keys == {};
    } else {
      var x :| x in ignoredTablets && x !in keys;
      assert x in ignoredTablets - keys;
    }
  }

  /** A set's size splits into the part outside another set and the part inside it. */
  lemma SizeBySplit(a: set<string>, b: set<string>)
    ensures |a| == |a - b| + |a * b|
  {
    assert a == (a - b) + (a * b);
    assert (a - b) !! (a * b);
  }

  // ---------------------------------------------------------------------
  // Classifying one tablet's outcome
  // ---------------------------------------------------------------------

  /** The backup flag: from the After status if present, else from Before, else false. */
  function BackupRunning(status: StopReplicationStatus): bool
  {
    if status.after.Some? then status.after.value.backupRunning
    else if status.before.Some? then status.before.value.backupRunning
    else false
  }

  /**
   * fillStatus: a stopped replica goes into the status map with its backup
   * flag; a tablet that turned out to be primary and was demoted goes into the
   * primary status map; both are reachable. A failed demotion or any other
   * error is reported, wrapped, and changes nothing.
   */
  function FillStatusOf(s: Snapshot, alias: string, tablet: Tablet, result: StopResult): (f: Filled)
    ensures f.err.None? <==> result.Stopped? || (result.NotReplica? && result.demote.Demoted?)
    ensures f.err.None? ==> f.snapshot.reachableTablets == s.reachableTablets + [tablet]
    ensures f.err.Some? ==> f.snapshot == s
    ensures result.Stopped? ==>
              && f.snapshot.statusMap == s.statusMap[alias := result.status]
              && f.snapshot.tabletsBackupState == s.tabletsBackupState[alias := BackupRunning(result.status)]
              && f.snapshot.primaryStatusMap == s.primaryStatusMap
    ensures result.NotReplica? && result.demote.Demoted? ==>
              && f.snapshot.primaryStatusMap == s.primaryStatusMap[alias := result.demote.primaryStatus]
              && f.snapshot.statusMap == s.statusMap
              && f.snapshot.tabletsBackupState == s.tabletsBackupState
    ensures result.NotReplica? && result.demote.DemoteError? ==> f.err == Some(DemoteFailed(alias, result.demote.err))
    ensures result.StopError? ==> f.err == Some(StatusFailed(alias, result.err))
  {
    match result
    case Stopped(status) =>
      Filled(s.(tabletsBackupState := s.tabletsBackupState[alias := BackupRunning(status)],
                statusMap := s.statusMap[alias := status],
                reachableTablets := s.reachableTablets + [tablet]),
             None)
    case NotReplica(Demoted(primaryStatus)) =>
      Filled(s.(primaryStatusMap := s.primaryStatusMap[alias := primaryStatus],
                reachableTablets := s.reachableTablets + [tablet]),
             None)
    case NotReplica(DemoteError(err)) =>
      Filled(s, Some(DemoteFailed(alias, err)))
    case StopError(err) =>
      Filled(s, Some(StatusFailed(alias, err)))
  }

  predicate OutcomesFrom(tabletMap: map<string, Tablet>, outcomes: seq<TabletOutcome>)
  {
    forall i | 0 <= i < |outcomes| :: outcomes[i].alias in tabletMap
  }

  /** The snapshot and recorded errors after applying the outcomes in order. */
  function FillAll(tabletMap: map<string, Tablet>, outcomes: seq<TabletOutcome>): Collected
    requires OutcomesFrom(tabletMap, outcomes)
  {
    if outcomes == [] then Collected(EmptySnapshot, [])
    else
      var c := FillAll(tabletMap, outcomes[..|outcomes| - 1]);
      var o := outcomes[|outcomes| - 1];
      var f := FillStatusOf(c.snapshot, o.alias, tabletMap[o.alias], o.result);
      Collected(f.snapshot, c.errors + if f.err.Some? then [f.err.value] else [])
  }

  /**
   * The snapshot invariant: the two status maps are disjoint, backup state is
   * known for exactly the stopped replicas, and there is one reachable tablet
   * per entry of either map.
   */
  predicate SnapshotInvariant(s: Snapshot)
  {
    && s.statusMap.Keys !! s.primaryStatusMap.Keys
    && s.tabletsBackupState.Keys == s.statusMap.Keys
    && |s.reachableTablets| == |s.statusMap| + |s.primaryStatusMap|
  }

  predicate DistinctOutcomes(outcomes: seq<TabletOutcome>)
  {
    forall i, j | 0 <= i < j < |outcomes| :: outcomes[i].alias != outcomes[j].alias
  }

  /** The aliases whose replication was stopped. */
  function StoppedAliases(outcomes: seq<TabletOutcome>): set<string>
  {
    set i | 0 <= i < |outcomes| && outcomes[i].result.Stopped? :: outcomes[i].alias
  }

  /** The aliases that turned out to be primary and were demoted. */
  function DemotedAliases(outcomes: seq<TabletOutcome>): set<string>
  {
    set i | 0 <= i < |outcomes| && outcomes[i].result.NotReplica? && outcomes[i].result.demote.Demoted? :: outcomes[i].alias
  }

  /** The aliases of all outcomes. */
  function OutcomeAliases(outcomes: seq<TabletOutcome>): set<string>
  {
    set i | 0 <= i < |outcomes| :: outcomes[i].alias
  }

  /** Splitting off the last outcome splits each alias set accordingly. */
  lemma AliasSetsOfLast(outcomes: seq<TabletOutcome>)
    requires outcomes != []
    ensures var n := |outcomes| - 1; var o := outcomes[n];
            && OutcomeAliases(outcomes) == OutcomeAliases(outcomes[..n]) + {o.alias}
            && StoppedAliases(outcomes) == StoppedAliases(outcomes[..n]) + (if o.result.Stopped? then {o.alias} else {})
            && DemotedAliases(outcomes) == DemotedAliases(outcomes[..n]) + (if o.result.NotReplica? && o.result.demote.Demoted? then {o.alias} else {})
  {
    var n := |outcomes| - 1;
    var prefix := outcomes[..n];
    assert forall i | 0 <= i < n :: prefix[i] == outcomes[i];
    assert OutcomeAliases(outcomes) == OutcomeAliases(prefix) + {outcomes[n].alias};
  }

  /** Updating a key adds it to the map's key set. */
  lemma UpdatedKeys<V>(m: map<string, V>, k: string, v: V)
    ensures m[k := v].Keys == m.Keys + {k}
  {
  }

  /** The status map holds exactly the stopped tablets, the primary status map exactly the demoted ones. */
  lemma {:induction false} FillAllKeys(tabletMap: map<string, Tablet>, outcomes: seq<TabletOutcome>)
    requires OutcomesFrom(tabletMap, outcomes)
    ensures FillAll(tabletMap, outcomes).snapshot.statusMap.Keys == StoppedAliases(outcomes)
    ensures FillAll(tabletMap, outcomes).snapshot.primaryStatusMap.Keys == DemotedAliases(outcomes)
    ensures FillAll(tabletMap, outcomes).snapshot.tabletsBackupState.Keys == StoppedAliases(outcomes)
  {
    if outcomes != [] {
      var n := |outcomes| - 1;
      var prefix := outcomes[..n];
      assert OutcomesFrom(tabletMap, prefix);
      FillAllKeys(tabletMap, prefix);
      AliasSetsOfLast(outcomes);
      var o := outcomes[n];
      var c := FillAll(tabletMap, prefix);
      if o.result.Stopped? {
        UpdatedKeys(c.snapshot.statusMap, o.alias, o.result.status);
        UpdatedKeys(c.snapshot.tabletsBackupState, o.alias, BackupRunning(o.result.status));
      } else if o.result.NotReplica? && o.result.demote.Demoted? {
        UpdatedKeys(c.snapshot.primaryStatusMap, o.alias, o.result.demote.primaryStatus);
      }
    }
  }

  /** Every outcome is either a reachable tablet or a recorded error. */
  lemma {:induction false} FillAllCounts(tabletMap: map<string, Tablet>, outcomes: seq<TabletOutcome>)
    requires OutcomesFrom(tabletMap, outcomes)
    ensures |FillAll(tabletMap, outcomes).errors| + |FillAll(tabletMap, outcomes).snapshot.reachableTablets| == |outcomes|
  {
    if outcomes != [] {
      var n := |outcomes| - 1;
      assert OutcomesFrom(tabletMap, outcomes[..n]);
      FillAllCounts(tabletMap, outcomes[..n]);
    }
  }

  /** No tablet is both stopped and demoted when the outcomes are of distinct tablets. */
  lemma StoppedAndDemotedDisjoint(outcomes: seq<TabletOutcome>)
    requires DistinctOutcomes(outcomes)
    ensures StoppedAliases(outcomes) !! DemotedAliases(outcomes)
  {
    forall i, j | 0 <= i < |outcomes| && 0 <= j < |outcomes| && outcomes[i].result.Stopped? && outcomes[j].result.NotReplica?
      ensures outcomes[i].alias != outcomes[j].alias
    {
      assert i != j;
    }
  }

  /** With outcomes of distinct tablets, there is one reachable tablet per entry of either map. */
  lemma {:induction false} FillAllReached(tabletMap: map<string, Tablet>, outcomes: seq<TabletOutcome>)
    requires OutcomesFrom(tabletMap, outcomes) && DistinctOutcomes(outcomes)
    ensures var s := FillAll(tabletMap, outcomes).snapshot;
            |s.reachableTablets| == |s.statusMap| + |s.primaryStatusMap|
  {
    if outcomes != [] {
      var n := |outcomes| - 1;
      var prefix := outcomes[..n];
      assert OutcomesFrom(tabletMap, prefix) && DistinctOutcomes(prefix);
      FillAllReached(tabletMap, prefix);
      FillAllKeys(tabletMap, prefix);
      var o := outcomes[n];
      assert o.alias !in OutcomeAliases(prefix);
      assert StoppedAliases(prefix) + DemotedAliases(prefix) <= OutcomeAliases(prefix);
    }
  }

  /** The tablet of every entry of either status map is among the reachable tablets. */
  lemma {:induction false} FillAllReachable(tabletMap: map<string, Tablet>, outcomes: seq<TabletOutcome>)
    requires OutcomesFrom(tabletMap, outcomes)
    ensures var s := FillAll(tabletMap, outcomes).snapshot;
            forall alias | alias in s.statusMap || alias in s.primaryStatusMap ::
              alias in tabletMap && tabletMap[alias] in s.reachableTablets
  {
    if outcomes != [] {
      var n := |outcomes| - 1;
      assert OutcomesFrom(tabletMap, outcomes[..n]);
      FillAllReachable(tabletMap, outcomes[..n]);
    }
  }

  /**
   * Applying outcomes of distinct tablets keeps the snapshot invariant; every
   * map entry's tablet is reachable; the status map holds exactly the stopped
   * tablets, the primary status map exactly the demoted ones, and every
   * outcome is either a reachable tablet or a recorded error.
   */
  lemma FillAllInvariant(tabletMap: map<string, Tablet>, outcomes: seq<TabletOutcome>)
    requires OutcomesFrom(tabletMap, outcomes) && DistinctOutcomes(outcomes)
    ensures SnapshotInvariant(FillAll(tabletMap, outcomes).snapshot)
    ensures var s := FillAll(tabletMap, outcomes).snapshot;
            forall alias | alias in s.statusMap || alias in s.primaryStatusMap ::
              alias in tabletMap && tabletMap[alias] in s.reachableTablets
    ensures FillAll(tabletMap, outcomes).snapshot.statusMap.Keys == StoppedAliases(outcomes)
    ensures FillAll(tabletMap, outcomes).snapshot.primaryStatusMap.Keys == DemotedAliases(outcomes)
    ensures |FillAll(tabletMap, outcomes).errors| + |FillAll(tabletMap, outcomes).snapshot.reachableTablets| == |outcomes|
  {
    FillAllKeys(tabletMap, outcomes);
    FillAllCounts(tabletMap, outcomes);
    StoppedAndDemotedDisjoint(outcomes);
    FillAllReached(tabletMap, outcomes);
    FillAllReachable(tabletMap, outcomes);
  }

  // ---------------------------------------------------------------------
  // The verdict
  // ---------------------------------------------------------------------

  /**
   * The final verdict (None: return the snapshot). With at most one recorded
   * error the snapshot is returned without asking the durability policy;
   * with more, the pass fails unless the reached tablets are enough to prove
   * that no unreached tablet can accept writes.
   */
  function Verdict(errors: seq<Error>, reachableTablets: seq<Tablet>, allTablets: seq<Tablet>, haveRevoked: (seq<Tablet>, seq<Tablet>) -> bool): (v: Option<Error>)
    ensures |errors| <= 1 ==> v.None?
    ensures v.Some? <==> |errors| > 1 && !haveRevoked(reachableTablets, allTablets)
    ensures v.Some? ==> v.value == InsufficientReach(errors) && v.value.recorded[0] == errors[0]
  {
    if |errors| <= 1 then None
    else if !haveRevoked(reachableTablets, allTablets) then Some(InsufficientReach(errors))
    else None
  }

  /** With at most one error, the verdict is the same whatever the durability policy says. */
  lemma VerdictIgnoresPolicyWithOneError(errors: seq<Error>, reachableTablets: seq<Tablet>, allTablets: seq<Tablet>,
                                         policyA: (seq<Tablet>, seq<Tablet>) -> bool, policyB: (seq<Tablet>, seq<Tablet>) -> bool)
    requires |errors| <= 1
    ensures Verdict(errors, reachableTablets, allTablets, policyA) == Verdict(errors, reachableTablets, allTablets, policyB) == None
  {
  }

  /**
   * When every launched task reported and the verdict is to go ahead with at
   * most one error, all launched tablets but at most one were reached.
   */
  lemma {:induction false} OneErrorMeansAllButOneReached(tabletMap: map<string, Tablet>, outcomes: seq<TabletOutcome>)
    requires OutcomesFrom(tabletMap, outcomes) && DistinctOutcomes(outcomes)
    requires |FillAll(tabletMap, outcomes).errors| <= 1
    ensures |FillAll(tabletMap, outcomes).snapshot.reachableTablets| >= |outcomes| - 1
    ensures |FillAll(tabletMap, outcomes).snapshot.statusMap| + |FillAll(tabletMap, outcomes).snapshot.primaryStatusMap| >= |outcomes| - 1
  {
    FillAllInvariant(tabletMap, outcomes);
  }

  // ---------------------------------------------------------------------
  // The snapshot object and the whole pass
  // ---------------------------------------------------------------------

  /** replicationSnapshot: the maps and the reachable list that the tasks fill in place. */
  class ReplicationSnapshot {
    var statusMap: map<string, StopReplicationStatus>
    var primaryStatusMap: map<string, PrimaryStatus>
    var reachableTablets: seq<Tablet>
    var tabletsBackupState: map<string, bool>

    function Value(): Snapshot
      reads this
    {
      Snapshot(statusMap, primaryStatusMap, reachableTablets, tabletsBackupState)
    }

    constructor ()
      ensures Value() == EmptySnapshot
    {
      statusMap, primaryStatusMap, reachableTablets, tabletsBackupState := map[], map[], [], map[];
    }

    /** The body of fillStatus after the RPCs returned: update the snapshot, report the task's error. */
    method FillStatus(alias: string, tablet: Tablet, result: StopResult) returns (err: Option<Error>)
      modifies this
      ensures Filled(Value(), err) == FillStatusOf(old(Value()), alias, tablet, result)
    {
      err := None;
      match result {
        case Stopped(stopReplicationStatus) =>
          var isTakingBackup := false;
          if stopReplicationStatus.after.Some? {
            isTakingBackup := stopReplicationStatus.after.value.backupRunning;
          } else if stopReplicationStatus.before.Some? {
            isTakingBackup := stopReplicationStatus.before.value.backupRunning;
          }
          tabletsBackupState := tabletsBackupState[alias := isTakingBackup];
          statusMap := statusMap[alias := stopReplicationStatus];
          reachableTablets := reachableTablets + [tablet];
        case NotReplica(demote) =>
          match demote {
            case DemoteError(demoteErr) =>
              err := Some(DemoteFailed(alias, demoteErr));
            case Demoted(primaryStatus) =>
              primaryStatusMap := primaryStatusMap[alias := primaryStatus];
              reachableTablets := reachableTablets + [tablet];
          }
        case StopError(stopErr) =>
          err := Some(StatusFailed(alias, stopErr));
      }
    }
  }

  /**
   * The updates made by the tasks whose reports Wait consumed, in order,
   * with the errors the group records.
   */
  method ApplyOutcomes(snapshot: ReplicationSnapshot, tabletMap: map<string, Tablet>, outcomes: seq<TabletOutcome>)
    returns (errors: seq<Error>)
    requires OutcomesFrom(tabletMap, outcomes)
    requires snapshot.Value() == EmptySnapshot
    modifies snapshot
    ensures Collected(snapshot.Value(), errors) == FillAll(tabletMap, outcomes)
  {
    errors := [];
    for k := 0 to |outcomes|
      invariant Collected(snapshot.Value(), errors) == FillAll(tabletMap, outcomes[..k])
    {
      var outcome := outcomes[k];
      var err := snapshot.FillStatus(outcome.alias, tabletMap[outcome.alias], outcome.result);
      if err.Some? {
        errors := errors + [err.value];
      }
      assert outcomes[..k + 1][..k] == outcomes[..k];
    }
    assert outcomes[..|outcomes|] == outcomes;
  }

  /** Every outcome comes from a distinct launched task. */
  predicate OutcomesOfLaunched(tabletMap: map<string, Tablet>, ignoredTablets: set<string>, outcomes: seq<TabletOutcome>)
  {
    && DistinctOutcomes(outcomes)
    && forall i | 0 <= i < |outcomes| :: outcomes[i].alias in tabletMap && outcomes[i].alias !in ignoredTablets
  }

  /**
   * stopReplicationAndBuildStatusMaps: launch a task per tablet that is not
   * ignored (visiting the tablet map in the given order), configure the
   * error group, apply the outcomes Wait consumed to a fresh snapshot, and
   * decide whether the pass is safe.
   */
  method StopReplicationAndBuildStatusMaps(
    tabletMap: map<string, Tablet>,
    ignoredTablets: set<string>,
    tabletToWaitFor: Option<string>,
    waitForAllTablets: bool,
    order: seq<string>,
    outcomes: seq<TabletOutcome>,
    haveRevoked: (seq<Tablet>, seq<Tablet>) -> bool)
    returns (res: Result<ReplicationSnapshot, Error>, group: ErrorGroup, allTablets: seq<Tablet>)
    requires IterationOrder(tabletMap, order)
    requires OutcomesOfLaunched(tabletMap, ignoredTablets, outcomes)
    ensures |allTablets| == |tabletMap|
    ensures forall alias | alias in tabletMap :: tabletMap[alias] in allTablets
    ensures group == ErrorGroupFor(tabletMap, ignoredTablets, waitForAllTablets,
                                   if AliasToWaitFor(tabletToWaitFor) in tabletMap.Keys - ignoredTablets then 1 else 0)
    ensures var c := FillAll(tabletMap, outcomes);
            && (res.Failure? <==> Verdict(c.errors, c.snapshot.reachableTablets, allTablets, haveRevoked).Some?)
            && (res.Failure? ==> res.error == Verdict(c.errors, c.snapshot.reachableTablets, allTablets, haveRevoked).value)
            && (res.Success? ==> fresh(res.value) && res.value.Value() == c.snapshot)
  {
    var launched, numErrorsToWaitFor;
    allTablets, launched, numErrorsToWaitFor := LaunchTablets(tabletMap, ignoredTablets, tabletToWaitFor, order);
    LaunchTabletsSummary(tabletMap, ignoredTablets, AliasToWaitFor(tabletToWaitFor), order);
    group := ErrorGroupFor(tabletMap, ignoredTablets, waitForAllTablets, numErrorsToWaitFor);

    var snapshot := new ReplicationSnapshot();
    var errors := ApplyOutcomes(snapshot, tabletMap, outcomes);

    if |errors| <= 1 {
      return Success(snapshot), group, allTablets;
    }
    var revokeSuccessful := haveRevoked(snapshot.reachableTablets, allTablets);
    if !revokeSuccessful {
      return Failure(InsufficientReach(errors)), group, allTablets;
    }
    return Success(snapshot), group, allTablets;
  }
}
