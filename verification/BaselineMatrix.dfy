/**
 The whole matrix: every combination of client version, server era and direction is
 evaluated against one baseline tree, and all replacements are blessed together.
 */
module BaselineMatrix {
  import opened Outcomes
  import opened FileTree
  import opened Findings
  import opened Baselines
  import opened BaselineTransaction
  import opened BaselineRoundTrip

  datatype Cell = Cell(version: Path, era: Era, direction: Direction)

  function CellOf(gate: Gate): Cell { Cell(gate.version, gate.era, gate.direction) }

  predicate NoRepeats<T(==)>(s: seq<T>) {
    forall i, j :: 0 <= i < j < |s| ==> s[i] != s[j]
  }

  /** No two gates are for the same version, era and direction. */
  predicate DistinctCells(gates: seq<Gate>) {
    forall i, j :: 0 <= i < j < |gates| ==> CellOf(gates[i]) != CellOf(gates[j])
  }

  lemma BothDirections(version: Path, era: Era)
    ensures forall c :: c in [Cell(version, era, Server), Cell(version, era, Client)] <==>
              c.version == version && c.era == era
  {
    forall c: Cell
      ensures c in [Cell(version, era, Server), Cell(version, era, Client)] <==> c.version == version && c.era == era
    {
      match c {
        case Cell(_, _, Server) =>
        case Cell(_, _, Client) =>
      }
    }
  }

  /** Both directions of every era, for one client version. */
  function CellsOfVersion(version: Path, eras: seq<Era>): (r: seq<Cell>)
    ensures forall c :: c in r <==> c.version == version && c.era in eras
  {
    if eras == [] then []
    else
      var last := eras[|eras| - 1];
      assert eras == eras[..|eras| - 1] + [last];
      BothDirections(version, last);
      CellsOfVersion(version, eras[..|eras| - 1]) + [Cell(version, last, Server), Cell(version, last, Client)]
  }

  /** The cells of a run, in the order they are evaluated. */
  function Matrix(versions: seq<Path>, eras: seq<Era>): (r: seq<Cell>)
    ensures forall c :: c in r <==> c.version in versions && c.era in eras
  {
    if versions == [] then []
    else
      assert versions == versions[..|versions| - 1] + [versions[|versions| - 1]];
      Matrix(versions[..|versions| - 1], eras) + CellsOfVersion(versions[|versions| - 1], eras)
  }

  lemma NoRepeatsAppend<T>(a: seq<T>, b: seq<T>)
    requires NoRepeats(a) && NoRepeats(b) && forall x :: x in a ==> x !in b
    ensures NoRepeats(a + b)
  {
    var c := a + b;
    forall i, j | 0 <= i < j < |c| ensures c[i] != c[j] {
      if i < |a| <= j { assert a[i] in a && b[j - |a|] in b; }
    }
  }

  lemma {:induction false} VersionHasNoRepeats(version: Path, eras: seq<Era>)
    requires NoRepeats(eras)
    ensures NoRepeats(CellsOfVersion(version, eras))
    decreases |eras|
  {
    if eras != [] {
      var rest, last := eras[..|eras| - 1], eras[|eras| - 1];
      VersionHasNoRepeats(version, rest);
      assert last !in rest;
      NoRepeatsAppend(CellsOfVersion(version, rest), [Cell(version, last, Server), Cell(version, last, Client)]);
    }
  }

  /** Versions and eras listed once give every cell once. */
  lemma {:induction false} MatrixHasNoRepeats(versions: seq<Path>, eras: seq<Era>)
    requires NoRepeats(versions) && NoRepeats(eras)
    ensures NoRepeats(Matrix(versions, eras))
    decreases |versions|
  {
    if versions != [] {
      var rest, last := versions[..|versions| - 1], versions[|versions| - 1];
      MatrixHasNoRepeats(rest, eras);
      VersionHasNoRepeats(last, eras);
      assert last !in rest;
      NoRepeatsAppend(Matrix(rest, eras), CellsOfVersion(last, eras));
    }
  }

  /** A list without its repeats: each member where it is first. */
  function FirstOccurrences<T(==,!new)>(s: seq<T>): (r: seq<T>)
    ensures NoRepeats(r) && forall x :: x in r <==> x in s
  {
    if s == [] then []
    else
      var last, rest := s[|s| - 1], FirstOccurrences(s[..|s| - 1]);
      assert s == s[..|s| - 1] + [last];
      if last in rest then rest else rest + [last]
  }

  /** The gates of the cells that have results. */
  function Present(cells: seq<Cell>, gateOf: Cell -> Gate): (r: seq<Gate>)
    ensures forall c :: c in cells && gateOf(c).results != map[] ==> gateOf(c) in r
    ensures forall g :: g in r ==> exists c :: c in cells && g == gateOf(c)
  {
    if cells == [] then []
    else
      var last, rest := cells[|cells| - 1], Present(cells[..|cells| - 1], gateOf);
      assert cells == cells[..|cells| - 1] + [last];
      if gateOf(last).results == map[] then rest else rest + [gateOf(last)]
  }

  lemma {:induction false} PresentCellsAreDistinct(cells: seq<Cell>, gateOf: Cell -> Gate)
    requires NoRepeats(cells) && forall c :: CellOf(gateOf(c)) == c
    ensures DistinctCells(Present(cells, gateOf))
    decreases |cells|
  {
    if cells != [] {
      var before, last := cells[..|cells| - 1], cells[|cells| - 1];
      var rest := Present(before, gateOf);
      PresentCellsAreDistinct(before, gateOf);
      forall i | 0 <= i < |rest| ensures CellOf(rest[i]) != last {
        assert rest[i] in rest;
        var c :| c in before && rest[i] == gateOf(c);
        var k :| 0 <= k < |before| && before[k] == c;
        assert cells[k] == c;
      }
    }
  }

  /** The results of evaluating every gate with blessing against one tree. */
  ghost predicate Evaluated(gates: seq<Gate>, evaluations: seq<Evaluation>, root: Option<Tree>) {
    && |gates| == |evaluations|
    && forall i :: 0 <= i < |gates| ==> gates[i].EvaluatesTo(root, true, Ok(evaluations[i]))
  }

  function AllUpdates(evaluations: seq<Evaluation>): seq<Update> {
    if evaluations == [] then []
    else AllUpdates(evaluations[..|evaluations| - 1]) + evaluations[|evaluations| - 1].updates
  }

  lemma {:induction false} ChosenHasNoRepeats(lanes: seq<Lane>, selected: set<Lane>)
    requires NoRepeats(lanes)
    ensures NoRepeats(Chosen(lanes, selected))
    decreases |lanes|
  {
    if lanes != [] {
      var rest := lanes[..|lanes| - 1];
      ChosenHasNoRepeats(rest, selected);
      assert lanes[|lanes| - 1] !in rest;
    }
  }

  /** The updates of one evaluation have a path each. */
  lemma UpdatesOfOneCell(gate: Gate, evaluation: Evaluation, root: Option<Tree>)
    requires gate.EvaluatesTo(root, true, Ok(evaluation))
    ensures DistinctPaths(evaluation.updates)
    ensures forall u :: u in evaluation.updates ==>
              StrictlySorted(u.document.findings) && exists lane :: u.path == gate.PathOf(lane)
  {
    var updates, comparisons := evaluation.updates, evaluation.comparisons;
    LanesHaveNoRepeats();
    ChosenHasNoRepeats(ALL_LANES, gate.selected);
    forall i, j | 0 <= i < j < |updates| ensures updates[i].path != updates[j].path {
      assert LanesOf(comparisons)[i] != LanesOf(comparisons)[j];
      if updates[i].path == updates[j].path {
        BaselinePathIsInjective(gate.version, gate.era, gate.direction, comparisons[i].lane,
                                gate.version, gate.era, gate.direction, comparisons[j].lane);
      }
    }
    forall u | u in updates
      ensures StrictlySorted(u.document.findings) && exists lane :: u.path == gate.PathOf(lane)
    {
      var i :| 0 <= i < |updates| && updates[i] == u;
      assert gate.Compared(comparisons[i], root);
      assert u.path == gate.PathOf(comparisons[i].lane);
    }
  }

  lemma LanesHaveNoRepeats()
    ensures NoRepeats(ALL_LANES)
  {
    assert ALL_LANES[0] == FixtureDirect && ALL_LANES[1] == BuiltInDataPlane && ALL_LANES[2] == ExternalDataPlane;
  }

  /** The update is for some lane of some cell. */
  ghost predicate FromCells(gates: seq<Gate>, u: Update) {
    exists i, lane :: 0 <= i < |gates| && u.path == gates[i].PathOf(lane)
  }

  lemma FromEarlierCells(gates: seq<Gate>, n: nat, u: Update)
    requires n <= |gates| && FromCells(gates[..n], u)
    ensures FromCells(gates, u)
  {
    var i, lane :| 0 <= i < n && u.path == gates[..n][i].PathOf(lane);
    assert u.path == gates[i].PathOf(lane);
  }

  lemma FromCell(gates: seq<Gate>, i: nat, evaluation: Evaluation, root: Option<Tree>, u: Update)
    requires i < |gates| && gates[i].EvaluatesTo(root, true, Ok(evaluation)) && u in evaluation.updates
    ensures StrictlySorted(u.document.findings) && FromCells(gates, u)
  {
    UpdatesOfOneCell(gates[i], evaluation, root);
    var lane :| u.path == gates[i].PathOf(lane);
  }

  lemma EarlierEvaluated(gates: seq<Gate>, evaluations: seq<Evaluation>, root: Option<Tree>, n: nat)
    requires Evaluated(gates, evaluations, root) && n <= |gates|
    ensures Evaluated(gates[..n], evaluations[..n], root)
  {
  }

  /** Every update of the matrix belongs to some cell and lists its findings in order. */
  lemma {:induction false} UpdatesComeFromCells(
    gates: seq<Gate>, evaluations: seq<Evaluation>, root: Option<Tree>, u: Update)
    requires Evaluated(gates, evaluations, root) && u in AllUpdates(evaluations)
    ensures StrictlySorted(u.document.findings) && FromCells(gates, u)
    decreases |gates|
  {
    hide FromCells, Gate.EvaluatesTo, StrictlySorted;
    var n := |gates| - 1;
    if u in evaluations[n].updates {
      FromCell(gates, n, evaluations[n], root, u);
    } else {
      EarlierEvaluated(gates, evaluations, root, n);
      UpdatesComeFromCells(gates[..n], evaluations[..n], root, u);
      FromEarlierCells(gates, n, u);
    }
  }

  /** No two updates of the whole matrix ever name the same file. */
  lemma {:induction false} MatrixUpdatesNeverClash(gates: seq<Gate>, evaluations: seq<Evaluation>, root: Option<Tree>)
    requires Evaluated(gates, evaluations, root) && DistinctCells(gates)
    ensures DistinctPaths(AllUpdates(evaluations))
    decreases |gates|
  {
    if gates != [] {
      var n := |gates| - 1;
      var before, last := AllUpdates(evaluations[..n]), evaluations[n].updates;
      MatrixUpdatesNeverClash(gates[..n], evaluations[..n], root);
      UpdatesOfOneCell(gates[n], evaluations[n], root);
      forall u, v | u in before && v in last ensures u.path != v.path {
        UpdatesComeFromCells(gates[..n], evaluations[..n], root, u);
        var i, lane :| 0 <= i < n && u.path == gates[..n][i].PathOf(lane);
        var lane' :| v.path == gates[n].PathOf(lane');
        assert CellOf(gates[i]) != CellOf(gates[n]);
        if u.path == v.path {
          BaselinePathIsInjective(gates[i].version, gates[i].era, gates[i].direction, lane,
                                  gates[n].version, gates[n].era, gates[n].direction, lane');
        }
      }
      DistinctAppend(before, last);
    }
  }

  lemma DistinctAppend(a: seq<Update>, b: seq<Update>)
    requires DistinctPaths(a) && DistinctPaths(b)
    requires forall u, v :: u in a && v in b ==> u.path != v.path
    ensures DistinctPaths(a + b)
  {
    var c := a + b;
    forall i, j | 0 <= i < j < |c| ensures c[i].path != c[j].path {
      if i < |a| <= j { assert a[i] in a && b[j - |a|] in b; }
    }
  }

  /** Blessing a matrix can only be refused for a document that is too big. */
  lemma RefusedOnlyForSize(
    gates: seq<Gate>, evaluations: seq<Evaluation>, root: Option<Tree>, size: Content -> nat, error: BlessError)
    requires Evaluated(gates, evaluations, root) && DistinctCells(gates)
    ensures Refused(error, AllUpdates(evaluations), size) ==>
              && error == RejectedUpdate
              && exists u :: u in AllUpdates(evaluations) && size(Yaml(u.document)) > MAX_BASELINE_BYTES
  {
    MatrixUpdatesNeverClash(gates, evaluations, root);
    if Refused(error, AllUpdates(evaluations), size) {
      var u :| u in AllUpdates(evaluations) && !Acceptable(Yaml(u.document), size);
      UpdatesComeFromCells(gates, evaluations, root, u);
    }
  }

  lemma {:induction false} CellUpdatesAreCommitted(evaluations: seq<Evaluation>, i: nat, u: Update)
    requires i < |evaluations| && u in evaluations[i].updates
    ensures u in AllUpdates(evaluations)
    decreases |evaluations|
  {
    if i < |evaluations| - 1 { CellUpdatesAreCommitted(evaluations[..|evaluations| - 1], i, u); }
  }

  /** Every cell selects a lane, so a matrix with a cell has something to bless. */
  lemma CellsHaveUpdates(gates: seq<Gate>, evaluations: seq<Evaluation>, root: Option<Tree>)
    requires Evaluated(gates, evaluations, root)
    ensures gates != [] ==> AllUpdates(evaluations) != []
  {
    if gates != [] {
      var n := |gates| - 1;
      assert gates[n].Evaluable(root, true);
      var lane :| lane in gates[n].selected;
      LaneIsListed(lane);
      assert lane in LanesOf(evaluations[n].comparisons);
      assert |evaluations[n].updates| > 0;
    }
  }

  lemma CellIsBlessed(gates: seq<Gate>, evaluations: seq<Evaluation>, before: Layout, updates: seq<Update>, i: nat)
    requires Evaluated(gates, evaluations, RootOf(before)) && i < |gates| && updates == AllUpdates(evaluations)
    requires Committable(updates, gates[i].size) && Installed(before, updates).Some?
    ensures Blessed(gates[i], before, evaluations[i], updates)
  {
    forall u | u in evaluations[i].updates ensures u in updates {
      CellUpdatesAreCommitted(evaluations, i, u);
    }
  }

  ghost predicate CellMatches(gate: Gate, evaluation: Evaluation) {
    AllMatch(evaluation.comparisons) && LanesOf(evaluation.comparisons) == Chosen(ALL_LANES, gate.selected)
  }

  /**
   Evaluates every cell with blessing, going on after one that fails, and collects the
   updates of those that succeed.
   */
  method EvaluateMatrix(gates: seq<Gate>, root: Option<Tree>)
    returns (failed: seq<nat>, updates: seq<Update>, ghost evaluations: seq<Evaluation>)
    ensures forall i: nat :: i in failed <==> i < |gates| && !gates[i].Evaluable(root, true)
    ensures updates == AllUpdates(evaluations) && |evaluations| + |failed| == |gates|
    ensures failed == [] ==> Evaluated(gates, evaluations, root)
  {
    hide Gate.Evaluable, AllUpdates;
    failed, evaluations := [], [];
    NoUpdates();
    updates := [];
    for i := 0 to |gates|
      invariant |evaluations| + |failed| == i && updates == AllUpdates(evaluations)
      invariant forall k: nat :: k in failed <==> k < i && !gates[k].Evaluable(root, true)
      invariant failed == [] ==>
                  forall k :: 0 <= k < i ==> gates[k].EvaluatesTo(root, true, Ok(evaluations[k]))
    {
      var evaluated := Evaluate(gates[i], root, true);
      assert evaluated.Ok? <==> gates[i].Evaluable(root, true);
      hide Gate.EvaluatesTo;
      if evaluated.Ok? {
        AllUpdatesAppend(evaluations, evaluated.value);
        evaluations := evaluations + [evaluated.value];
        updates := updates + evaluated.value.updates;
      } else {
        failed := failed + [i];
      }
    }
  }

  lemma NoUpdates()
    ensures AllUpdates([]) == []
  {
  }

  lemma AllUpdatesAppend(evaluations: seq<Evaluation>, evaluation: Evaluation)
    ensures AllUpdates(evaluations + [evaluation]) == AllUpdates(evaluations) + evaluation.updates
  {
    assert (evaluations + [evaluation])[..|evaluations|] == evaluations;
  }

  /** Evaluates every cell of a blessed matrix again, without blessing. */
  method RecheckMatrix(
    gates: seq<Gate>, tree: Tree, ghost before: Layout, ghost evaluations: seq<Evaluation>, ghost updates: seq<Update>)
    returns (again: seq<Evaluation>)
    requires Evaluated(gates, evaluations, RootOf(before)) && updates == AllUpdates(evaluations)
    requires Installed(before, updates) == Some(tree)
    requires forall i :: 0 <= i < |gates| ==> Committable(updates, gates[i].size)
    ensures |again| == |gates| && forall i :: 0 <= i < |gates| ==> CellMatches(gates[i], again[i])
  {
    hide Gate.EvaluatesTo, Gate.Evaluable, Committable, Installed, CellMatches, AllUpdates;
    again := [];
    for i := 0 to |gates|
      invariant |again| == i
      invariant forall k :: 0 <= k < i ==> CellMatches(gates[k], again[k])
    {
      var rechecked := Evaluate(gates[i], Some(tree), false);
      RecheckedMatches(gates, evaluations, before, updates, i, rechecked);
      again := again + [rechecked.value];
    }
  }

  lemma RecheckedMatches(
    gates: seq<Gate>, evaluations: seq<Evaluation>, before: Layout, updates: seq<Update>, i: nat,
    rechecked: Result<Evaluation, EvaluationError>)
    requires Evaluated(gates, evaluations, RootOf(before)) && i < |gates| && updates == AllUpdates(evaluations)
    requires Committable(updates, gates[i].size) && Installed(before, updates).Some?
    requires gates[i].EvaluatesTo(Some(Installed(before, updates).value), false, rechecked)
    ensures rechecked.Ok? && CellMatches(gates[i], rechecked.value)
  {
    hide Gate.EvaluatesTo, Committable, Installed, AllUpdates, Chosen, AllMatch, Blessed;
    CellIsBlessed(gates, evaluations, before, updates, i);
    BlessedResultsMatch(gates[i], before, evaluations[i], updates, rechecked);
  }

  /** The outcome of blessing a matrix: failed before or in the commit, or every cell evaluated again. */
  datatype MatrixOutcome =
    | NotEvaluated(cells: seq<nat>) | NotCommitted(error: BlessError) | Committed(again: seq<Evaluation>)

  /**
   Evaluates every cell, commits all replacements in one transaction, and evaluates
   every cell again: after a commit every selected lane of every cell matches, and a
   commit is refused only for a document above the size limit.
   */
  method BlessMatrix(gates: seq<Gate>, disk: Disk, size: Content -> nat) returns (r: MatrixOutcome)
    requires Untouched(disk) && DistinctCells(gates) && forall i :: 0 <= i < |gates| ==> gates[i].size == size
    modifies disk
    ensures r.NotEvaluated? ==>
              && r.cells != [] && disk.layout == old(disk.layout)
              && forall i: nat :: i in r.cells <==> i < |gates| && !gates[i].Evaluable(RootOf(old(disk.layout)), true)
    ensures r.NotCommitted? ==>
              && r.error != DuplicateUpdate
              && (r.error == NothingToBless ==> gates == [])
              && (disk.failedRenames <= 1 && disk.leftovers == map[] ==> disk.layout == old(disk.layout))
    ensures r.Committed? ==>
              && |r.again| == |gates|
              && forall i :: 0 <= i < |gates| ==> CellMatches(gates[i], r.again[i])
  {
    hide Evaluated, AllUpdates, Committable, Gate.Evaluable, EachAccounted, Recovered, CellMatches, DistinctCells;
    ghost var before := disk.layout;
    var failed, updates, evaluations := EvaluateMatrix(gates, RootOf(disk.layout));
    if failed != [] { return NotEvaluated(failed); }
    var blessed := Bless(disk, updates, size);
    if blessed.Err? {
      CellsHaveUpdates(gates, evaluations, RootOf(before));
      RefusedOnlyForSize(gates, evaluations, RootOf(before), size, blessed.error);
      return NotCommitted(blessed.error);
    }
    var again := RecheckMatrix(gates, disk.layout[Root], before, evaluations, updates);
    return Committed(again);
  }

  /**
   A run for the requested versions and eras: they are taken once each, cells without
   results are passed over, and the rest are blessed as one matrix. After a commit
   every requested cell with results matches its baselines; no commit is refused for
   an update that is there twice.
   */
  method BlessRun(
    requestedVersions: seq<Path>, requestedEras: seq<Era>, gateOf: Cell -> Gate, disk: Disk, size: Content -> nat)
    returns (r: MatrixOutcome, ghost gates: seq<Gate>)
    requires Untouched(disk) && forall c :: CellOf(gateOf(c)) == c && gateOf(c).size == size
    modifies disk
    ensures r.NotEvaluated? ==> disk.layout == old(disk.layout)
    ensures r.NotCommitted? ==>
              && r.error != DuplicateUpdate
              && (disk.failedRenames <= 1 && disk.leftovers == map[] ==> disk.layout == old(disk.layout))
    ensures r.Committed? ==> |r.again| == |gates| && forall i :: 0 <= i < |gates| ==> CellMatches(gates[i], r.again[i])
    ensures forall version, era, direction ::
              version in requestedVersions && era in requestedEras
              && gateOf(Cell(version, era, direction)).results != map[] ==>
                gateOf(Cell(version, era, direction)) in gates
  {
    hide CellMatches, EachAccounted, Recovered, Gate.Evaluable, NoRepeats, DistinctCells;
    var versions, eras := FirstOccurrences(requestedVersions), FirstOccurrences(requestedEras);
    MatrixHasNoRepeats(versions, eras);
    var cells := Matrix(versions, eras);
    var present := Present(cells, gateOf);
    gates := present;
    PresentCellsAreDistinct(cells, gateOf);
    forall i | 0 <= i < |present| ensures present[i].size == size {
      assert present[i] in present;
    }
    r := BlessMatrix(present, disk, size);
  }
}
