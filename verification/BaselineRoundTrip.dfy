/** Blessing the findings of a run makes the same run match its baselines. */
module BaselineRoundTrip {
  import opened Outcomes
  import opened FileTree
  import opened Findings
  import opened Baselines
  import opened BaselineTransaction

  ghost predicate AllMatch(comparisons: seq<Comparison>) {
    forall i :: 0 <= i < |comparisons| ==> comparisons[i].Matches()
  }

  /** A committed update is what the next evaluation reads for its lane. */
  lemma CommittedUpdateIsRead(before: Layout, updates: seq<Update>, u: Update, size: Content -> nat)
    requires Committable(updates, size) && Installed(before, updates).Some? && u in updates
    ensures ReadBaseline(Some(Installed(before, updates).value), u.path, size) == Present(u.document)
  {
    OverlayFiles(BaseOf(before), updates, u.path);
    assert FileAt(Installed(before, updates).value, u.path) == Some(Yaml(u.document));
  }

  /** A baseline no update names is read as before. */
  lemma OtherBaselinesAreKept(before: Layout, updates: seq<Update>, path: Path)
    requires DistinctPaths(updates)
    requires Installed(before, updates).Some? && forall u :: u in updates ==> u.path != path
    ensures FileAt(Installed(before, updates).value, path) == FileAt(BaseOf(before), path)
  {
    OverlayFiles(BaseOf(before), updates, path);
  }

  /** The attributed findings of a lane have one listing, so both evaluations list them alike. */
  lemma SameActual(gate: Gate, lane: Lane, root: Option<Tree>, root': Option<Tree>, c: Comparison, c': Comparison)
    requires c.lane == lane == c'.lane && gate.Compared(c, root) && gate.Compared(c', root')
    ensures c.actual == c'.actual
  {
    SortedListingIsUnique(c.actual, c'.actual);
  }

  lemma EmptyOrHasHead<T>(s: seq<T>)
    ensures s == [] || s[0] in s
  {
  }

  function RootOf(layout: Layout): Option<Tree> {
    if Root in layout then Some(layout[Root]) else None
  }

  /** A blessing evaluation whose updates are all among those committed to `before`. */
  ghost predicate Blessed(gate: Gate, before: Layout, first: Evaluation, updates: seq<Update>) {
    && gate.EvaluatesTo(RootOf(before), true, Ok(first))
    && Committable(updates, gate.size) && Installed(before, updates).Some?
    && forall u :: u in first.updates ==> u in updates
  }

  lemma {:induction false} BlessedLaneIsRead(
    gate: Gate, before: Layout, first: Evaluation, updates: seq<Update>, i: nat)
    requires Blessed(gate, before, first, updates) && i < |first.comparisons|
    ensures ReadBaseline(Some(Installed(before, updates).value), gate.PathOf(first.comparisons[i].lane), gate.size)
            == Present(Document(first.comparisons[i].actual))
  {
    assert first.updates[i] in updates;
    CommittedUpdateIsRead(before, updates, first.updates[i], gate.size);
  }

  lemma BlessedIsEvaluable(gate: Gate, before: Layout, first: Evaluation, updates: seq<Update>)
    requires Blessed(gate, before, first, updates)
    ensures gate.Evaluable(Some(Installed(before, updates).value), false)
  {
    assert gate.Evaluable(RootOf(before), true);
    forall lane | lane in gate.selected
      ensures gate.Ready(lane, Some(Installed(before, updates).value), false)
    {
      LaneIsListed(lane);
      assert lane in LanesOf(first.comparisons);
      var i :| 0 <= i < |first.comparisons| && LanesOf(first.comparisons)[i] == lane;
      BlessedLaneIsRead(gate, before, first, updates, i);
      assert gate.Ready(lane, RootOf(before), true);
    }
  }

  /**
   The round trip. Whatever else is committed with them, once the updates of a
   blessing evaluation are in the tree, evaluating the same results without
   blessing succeeds and every selected lane matches.
   */
  lemma {:induction false} BlessedResultsMatch(
    gate: Gate, before: Layout, first: Evaluation, updates: seq<Update>,
    second: Result<Evaluation, EvaluationError>)
    requires Blessed(gate, before, first, updates)
    requires gate.EvaluatesTo(Some(Installed(before, updates).value), false, second)
    ensures second.Ok? && AllMatch(second.value.comparisons)
    ensures LanesOf(second.value.comparisons) == Chosen(ALL_LANES, gate.selected)
  {
    BlessedIsEvaluable(gate, before, first, updates);
    forall k | 0 <= k < |second.value.comparisons| ensures second.value.comparisons[k].Matches() {
      var c := second.value.comparisons[k];
      assert LanesOf(second.value.comparisons)[k] == LanesOf(first.comparisons)[k];
      BlessedLaneIsRead(gate, before, first, updates, k);
      SameActual(gate, c.lane, RootOf(before), Some(Installed(before, updates).value), first.comparisons[k], c);
      assert c.expected == c.actual;
      EmptyOrHasHead(c.unexpected);
      EmptyOrHasHead(c.stale);
    }
  }

  /** Evaluate with blessing, commit, evaluate again: the last evaluation reports no drift. */
  method BlessAndRecheck(gate: Gate, disk: Disk)
    returns (committed: bool, recheck: Result<Evaluation, EvaluationError>)
    requires Untouched(disk)
    modifies disk
    ensures committed ==> recheck.Ok? && AllMatch(recheck.value.comparisons)
                          && LanesOf(recheck.value.comparisons) == Chosen(ALL_LANES, gate.selected)
  {
    ghost var before := disk.layout;
    var first := Evaluate(gate, RootOf(disk.layout), true);
    if first.Err? { return false, first; }
    var blessed := Bless(disk, first.value.updates, gate.size);
    if blessed.Err? { return false, first; }
    recheck := Evaluate(gate, RootOf(disk.layout), false);
    BlessedResultsMatch(gate, before, first.value, first.value.updates, recheck);
    committed := true;
  }
}
