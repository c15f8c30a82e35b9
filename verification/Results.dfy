/**
 Reducing official checks to outcomes, comparing the three result sets, and the
 counts and rows of the comparison report.
 */
module Results {
  import opened Outcomes
  import opened Findings
  import opened Markdown

  datatype Status = Success | Failed | Warned | Skipped | Info | Unknown(text: string)

  datatype Check = Check(status: Status, errorMessage: Option<string>, references: seq<Reference>)

  datatype Outcome = Compliant | NonCompliant | FixtureFailed | NotApplicable | Ambiguous | Missing

  datatype Classification =
    | AllCompliant | FixtureOnly | BuiltInOnly | ExternalOnly | FixtureAndBuiltIn | FixtureAndExternal
    | GatewaysOnly | Shared | FixtureProblem | NothingApplies | Unclear

  datatype Side = OfFixture | OfBuiltIn | OfExternal

  /** The checks of each scenario of one result set. */
  type ResultSet = map<string, seq<Check>>

  datatype ScenarioRow = ScenarioRow(
    scenario: string, fixture: Outcome, fixtureFailed: nat, builtIn: Outcome, builtInFailed: nat,
    external: Outcome, externalFailed: nat, classification: Classification, references: seq<Reference>)

  // --------------------------------------------------------------- outcomes

  const MISSING_FIXTURE_MARKERS: seq<string> := [
    "Tool not found: test_", "Tool 'json_schema_2020_12_tool' not found", "Prompt not found: test_",
    "Resource not found: test://", "Routing problem... wrong tool name", "Routing problem... wrong prompt name",
    "Routing problem... wrong resource name", "Routing problem... wrong completion reference"]

  predicate Contains(text: string, part: string) {
    exists i :: 0 <= i <= |text| && part <= text[i..]
  }

  predicate IsMissingFixture(message: string) {
    exists k :: 0 <= k < |MISSING_FIXTURE_MARKERS| && Contains(message, MISSING_FIXTURE_MARKERS[k])
  }

  predicate BlamesFixture(check: Check) {
    check.errorMessage.Some? && IsMissingFixture(check.errorMessage.value)
  }

  predicate Has(checks: seq<Check>, status: Status) {
    exists i :: 0 <= i < |checks| && checks[i].status == status
  }

  predicate HasUnknown(checks: seq<Check>) {
    exists i :: 0 <= i < |checks| && checks[i].status.Unknown?
  }

  predicate EveryFailureBlamesFixture(checks: seq<Check>) {
    forall i :: 0 <= i < |checks| && checks[i].status == Failed ==> BlamesFixture(checks[i])
  }

  predicate AllBlameFixture(failures: seq<Check>) {
    forall i :: 0 <= i < |failures| ==> BlamesFixture(failures[i])
  }

  lemma BlameAppend(failures: seq<Check>, check: Check)
    ensures AllBlameFixture(failures + [check]) <==> AllBlameFixture(failures) && BlamesFixture(check)
  {
    var longer := failures + [check];
    assert longer[|failures|] == check && forall i :: 0 <= i < |failures| ==> longer[i] == failures[i];
  }

  /** Failures come first, then unknown statuses, then evidence of compliance. */
  function OutcomeOf(checks: seq<Check>): Outcome {
    if Has(checks, Failed) then if EveryFailureBlamesFixture(checks) then FixtureFailed else NonCompliant
    else if HasUnknown(checks) then Ambiguous
    else if Has(checks, Success) || Has(checks, Warned) then Compliant
    else if Has(checks, Skipped) || Has(checks, Info) then NotApplicable
    else Ambiguous
  }

  /** One pass over the checks of a scenario. */
  method ScenarioOutcome(checks: seq<Check>) returns (outcome: Outcome)
    ensures outcome == OutcomeOf(checks)
  {
    var success, warning, skipped, info, unknown := false, false, false, false, false;
    var failures: seq<Check> := [];
    for i := 0 to |checks|
      invariant success <==> Has(checks[..i], Success)
      invariant warning <==> Has(checks[..i], Warned)
      invariant skipped <==> Has(checks[..i], Skipped)
      invariant info <==> Has(checks[..i], Info)
      invariant unknown <==> HasUnknown(checks[..i])
      invariant failures != [] <==> Has(checks[..i], Failed)
      invariant AllBlameFixture(failures) <==> EveryFailureBlamesFixture(checks[..i])
    {
      var check := checks[i];
      NextCheck(checks, i);
      match check.status {
        case Failed =>
          BlameAppend(failures, check);
          failures := failures + [check];
        case Warned => warning := true;
        case Success => success := true;
        case Skipped => skipped := true;
        case Info => info := true;
        case Unknown(_) => unknown := true;
      }
    }
    assert checks[..|checks|] == checks;
    if failures != [] {
      return if AllBlameFixture(failures) then FixtureFailed else NonCompliant;
    }
    if unknown { return Ambiguous; }
    if success || warning { return Compliant; }
    return if skipped || info then NotApplicable else Ambiguous;
  }

  lemma NextCheck(checks: seq<Check>, i: nat)
    requires i < |checks|
    ensures forall status :: Has(checks[..i + 1], status) <==> Has(checks[..i], status) || checks[i].status == status
    ensures HasUnknown(checks[..i + 1]) <==> HasUnknown(checks[..i]) || checks[i].status.Unknown?
    ensures EveryFailureBlamesFixture(checks[..i + 1]) <==>
              EveryFailureBlamesFixture(checks[..i]) && (checks[i].status == Failed ==> BlamesFixture(checks[i]))
  {
    var before, after := checks[..i], checks[..i + 1];
    assert after == before + [checks[i]];
    assert after[i] == checks[i] && forall k :: 0 <= k < i ==> after[k] == before[k];
    forall status ensures Has(after, status) <==> Has(before, status) || checks[i].status == status {
      if Has(before, status) {
        var k :| 0 <= k < i && before[k].status == status;
        assert after[k].status == status;
      }
      if checks[i].status == status { assert after[i].status == status; }
    }
    if HasUnknown(before) {
      var k :| 0 <= k < i && before[k].status.Unknown?;
      assert after[k].status.Unknown?;
    }
    if checks[i].status.Unknown? { assert after[i].status.Unknown?; }
  }

  /** A failure that looks like a missing fixture still counts against the implementation. */
  function GatedOutcome(checks: seq<Check>): Outcome {
    if OutcomeOf(checks) == FixtureFailed then NonCompliant else OutcomeOf(checks)
  }

  /** The sides a classification says have failed. */
  function Blamed(classification: Classification): set<Side> {
    match classification
    case FixtureOnly => {OfFixture}
    case BuiltInOnly => {OfBuiltIn}
    case ExternalOnly => {OfExternal}
    case FixtureAndBuiltIn => {OfFixture, OfBuiltIn}
    case FixtureAndExternal => {OfFixture, OfExternal}
    case GatewaysOnly => {OfBuiltIn, OfExternal}
    case Shared => {OfFixture, OfBuiltIn, OfExternal}
    case _ => {}
  }

  function Classify(fixture: Outcome, builtIn: Outcome, external: Outcome): (r: Classification)
    ensures r != FixtureProblem && r != Unclear ==>
              && (OfFixture in Blamed(r) <==> fixture == NonCompliant)
              && (OfBuiltIn in Blamed(r) <==> builtIn == NonCompliant)
              && (OfExternal in Blamed(r) <==> external == NonCompliant)
              && (r == NothingApplies <==> fixture == NotApplicable == builtIn == external)
    ensures r == FixtureProblem <==> FixtureFailed in [fixture, builtIn, external]
    ensures r == Unclear <==>
              FixtureFailed !in [fixture, builtIn, external]
              && (Ambiguous in [fixture, builtIn, external] || Missing in [fixture, builtIn, external])
  {
    if fixture == FixtureFailed || builtIn == FixtureFailed || external == FixtureFailed then FixtureProblem
    else if fixture in {Ambiguous, Missing} || builtIn in {Ambiguous, Missing} || external in {Ambiguous, Missing}
    then Unclear
    else if fixture == NotApplicable && builtIn == NotApplicable && external == NotApplicable then NothingApplies
    else
      match (fixture == NonCompliant, builtIn == NonCompliant, external == NonCompliant)
      case (false, false, false) => AllCompliant
      case (true, false, false) => FixtureOnly
      case (false, true, false) => BuiltInOnly
      case (false, false, true) => ExternalOnly
      case (true, true, false) => FixtureAndBuiltIn
      case (true, false, true) => FixtureAndExternal
      case (false, true, true) => GatewaysOnly
      case (true, true, true) => Shared
  }

  // ------------------------------------------------------------- comparison

  function FailedCount(checks: seq<Check>): nat {
    if checks == [] then 0
    else FailedCount(checks[..|checks| - 1]) + if checks[|checks| - 1].status == Failed then 1 else 0
  }

  function SideOutcome(results: ResultSet, scenario: string): Outcome {
    if scenario in results then GatedOutcome(results[scenario]) else Missing
  }

  function SideFailed(results: ResultSet, scenario: string): nat {
    if scenario in results then FailedCount(results[scenario]) else 0
  }

  function SideReferences(results: ResultSet, scenario: string): seq<Reference> {
    if scenario in results then AllReferences(results[scenario]) else []
  }

  function AllReferences(checks: seq<Check>): seq<Reference> {
    if checks == [] then [] else AllReferences(checks[..|checks| - 1]) + checks[|checks| - 1].references
  }

  /** The row of one scenario; `arrange` sorts references by their serialized form and drops repeats. */
  function CompareOne(
    fixture: ResultSet, builtIn: ResultSet, external: ResultSet, scenario: string,
    arrange: seq<Reference> -> seq<Reference>): ScenarioRow
  {
    var f, b, e := SideOutcome(fixture, scenario), SideOutcome(builtIn, scenario), SideOutcome(external, scenario);
    ScenarioRow(scenario, f, SideFailed(fixture, scenario), b, SideFailed(builtIn, scenario),
                e, SideFailed(external, scenario), Classify(f, b, e),
                arrange(SideReferences(fixture, scenario) + SideReferences(builtIn, scenario)
                        + SideReferences(external, scenario)))
  }

  predicate NamesSorted(names: seq<string>) {
    forall i :: 0 <= i < |names| - 1 ==> TextLess(names[i], names[i + 1])
  }

  function InsertName(names: seq<string>, name: string): (r: seq<string>)
    ensures forall n :: n in r <==> n in names || n == name
    ensures NamesSorted(names) ==> NamesSorted(r)
    ensures r != [] && (r[0] == name || (names != [] && r[0] == names[0]))
    ensures name !in names ==> |r| == |names| + 1
  {
    if names == [] then [name]
    else if name == names[0] then names
    else if TextLess(name, names[0]) then [name] + names
    else
      var rest := InsertName(names[1..], name);
      assert names == [names[0]] + names[1..];
      TextTrichotomy(name, names[0]);
      assert NamesSorted(names) ==> NamesSorted(names[1..]);
      assert NamesSorted(names) ==> TextLess(names[0], rest[0]);
      [names[0]] + rest
  }

  /** The names of all scenarios, in order. */
  method SortedNames(names: set<string>) returns (sorted: seq<string>)
    ensures NamesSorted(sorted) && (forall n :: n in sorted <==> n in names) && |sorted| == |names|
  {
    sorted := [];
    var todo := names;
    while todo != {}
      invariant todo <= names && NamesSorted(sorted)
      invariant forall n :: n in sorted <==> n in names && n !in todo
      invariant |sorted| + |todo| == |names|
      decreases todo
    {
      var name :| name in todo;
      sorted := InsertName(sorted, name);
      todo := todo - {name};
    }
  }

  /** One row for each scenario of any set, strictly sorted by name. */
  method CompareResultSets(
    fixture: ResultSet, builtIn: ResultSet, external: ResultSet, arrange: seq<Reference> -> seq<Reference>)
    returns (rows: seq<ScenarioRow>)
    ensures forall i :: 0 <= i < |rows| ==> rows[i] == CompareOne(fixture, builtIn, external, rows[i].scenario, arrange)
    ensures forall i :: 0 <= i < |rows| - 1 ==> TextLess(rows[i].scenario, rows[i + 1].scenario)
    ensures forall name :: name in fixture.Keys + builtIn.Keys + external.Keys <==>
              exists i :: 0 <= i < |rows| && rows[i].scenario == name
    ensures |rows| == |fixture.Keys + builtIn.Keys + external.Keys|
  {
    hide CompareOne, TextLess, NamesSorted, RowsFor;
    var names := SortedNames(fixture.Keys + builtIn.Keys + external.Keys);
    rows := [];
    NoRows(fixture, builtIn, external, arrange);
    for k := 0 to |names|
      invariant RowsFor(fixture, builtIn, external, arrange, names[..k], rows)
    {
      assert names[..k + 1] == names[..k] + [names[k]];
      NextRow(fixture, builtIn, external, arrange, names[..k], rows, names[k]);
      rows := rows + [CompareOne(fixture, builtIn, external, names[k], arrange)];
    }
    assert names[..|names|] == names;
    RowsForNames(fixture, builtIn, external, arrange, names, rows);
    RowsFollowNames(names, rows, fixture.Keys + builtIn.Keys + external.Keys);
  }

  /** The rows of the names, one each, in their order. */
  ghost predicate RowsFor(
    fixture: ResultSet, builtIn: ResultSet, external: ResultSet, arrange: seq<Reference> -> seq<Reference>,
    names: seq<string>, rows: seq<ScenarioRow>)
  {
    && |rows| == |names|
    && forall i :: 0 <= i < |rows| ==> rows[i] == CompareOne(fixture, builtIn, external, names[i], arrange)
  }

  lemma NoRows(
    fixture: ResultSet, builtIn: ResultSet, external: ResultSet, arrange: seq<Reference> -> seq<Reference>)
    ensures RowsFor(fixture, builtIn, external, arrange, [], [])
  {
  }

  lemma NextRow(
    fixture: ResultSet, builtIn: ResultSet, external: ResultSet, arrange: seq<Reference> -> seq<Reference>,
    names: seq<string>, rows: seq<ScenarioRow>, name: string)
    requires RowsFor(fixture, builtIn, external, arrange, names, rows)
    ensures RowsFor(fixture, builtIn, external, arrange, names + [name],
                    rows + [CompareOne(fixture, builtIn, external, name, arrange)])
  {
    hide CompareOne;
  }

  lemma RowsForNames(
    fixture: ResultSet, builtIn: ResultSet, external: ResultSet, arrange: seq<Reference> -> seq<Reference>,
    names: seq<string>, rows: seq<ScenarioRow>)
    requires RowsFor(fixture, builtIn, external, arrange, names, rows)
    ensures |rows| == |names|
    ensures forall i :: 0 <= i < |rows| ==>
              rows[i].scenario == names[i]
              && rows[i] == CompareOne(fixture, builtIn, external, rows[i].scenario, arrange)
  {
    hide CompareOne;
    forall i | 0 <= i < |rows| ensures rows[i].scenario == names[i] {
      CompareOneNames(fixture, builtIn, external, names[i], arrange);
    }
  }

  lemma CompareOneNames(
    fixture: ResultSet, builtIn: ResultSet, external: ResultSet, scenario: string,
    arrange: seq<Reference> -> seq<Reference>)
    ensures CompareOne(fixture, builtIn, external, scenario, arrange).scenario == scenario
  {
  }

  lemma RowsFollowNames(names: seq<string>, rows: seq<ScenarioRow>, all: set<string>)
    requires |rows| == |names| && forall i :: 0 <= i < |rows| ==> rows[i].scenario == names[i]
    requires NamesSorted(names) && forall n :: n in names <==> n in all
    ensures forall i :: 0 <= i < |rows| - 1 ==> TextLess(rows[i].scenario, rows[i + 1].scenario)
    ensures forall name :: name in all <==> exists i :: 0 <= i < |rows| && rows[i].scenario == name
  {
    hide TextLess;
    forall name ensures name in all <==> exists i :: 0 <= i < |rows| && rows[i].scenario == name {
      if name in names {
        var i :| 0 <= i < |names| && names[i] == name;
        assert rows[i].scenario == name;
      }
    }
  }

  /** A row's sides are missing exactly where the set has no such scenario, and never a fixture failure. */
  lemma RowSides(
    fixture: ResultSet, builtIn: ResultSet, external: ResultSet, scenario: string,
    arrange: seq<Reference> -> seq<Reference>)
    ensures var row := CompareOne(fixture, builtIn, external, scenario, arrange);
            && (row.fixture == Missing <==> scenario !in fixture)
            && (row.builtIn == Missing <==> scenario !in builtIn)
            && (row.external == Missing <==> scenario !in external)
            && row.fixture != FixtureFailed && row.builtIn != FixtureFailed && row.external != FixtureFailed
            && row.classification != FixtureProblem
            && (row.fixture == NonCompliant <==> row.fixtureFailed > 0)
            && (row.builtIn == NonCompliant <==> row.builtInFailed > 0)
            && (row.external == NonCompliant <==> row.externalFailed > 0)
  {
    SideFacts(fixture, scenario);
    SideFacts(builtIn, scenario);
    SideFacts(external, scenario);
    hide SideOutcome, SideFailed, SideReferences;
  }

  lemma SideFacts(results: ResultSet, scenario: string)
    ensures SideOutcome(results, scenario) == Missing <==> scenario !in results
    ensures SideOutcome(results, scenario) != FixtureFailed
    ensures SideOutcome(results, scenario) == NonCompliant <==> SideFailed(results, scenario) > 0
  {
    if scenario in results { FailedCountCounts(results[scenario]); }
  }

  lemma {:induction false} FailedCountCounts(checks: seq<Check>)
    ensures FailedCount(checks) > 0 <==> Has(checks, Failed)
    decreases |checks|
  {
    if checks != [] {
      var n := |checks| - 1;
      FailedCountCounts(checks[..n]);
      assert checks[..n + 1] == checks;
      NextCheck(checks, n);
    }
  }

  /** A scenario set is accepted when it is the catalog and no scenario is without checks. */
  predicate ValidScenarioSet(results: ResultSet, expected: set<string>) {
    && expected - results.Keys == {} && results.Keys - expected == {}
    && forall scenario :: scenario in results ==> results[scenario] != []
  }

  /** Three sets accepted for one catalog give one row a catalog entry, with no side missing. */
  lemma ValidatedSetsAreComplete(
    fixture: ResultSet, builtIn: ResultSet, external: ResultSet, expected: set<string>, scenario: string,
    arrange: seq<Reference> -> seq<Reference>)
    requires ValidScenarioSet(fixture, expected) && ValidScenarioSet(builtIn, expected)
    requires ValidScenarioSet(external, expected)
    ensures fixture.Keys + builtIn.Keys + external.Keys == expected
    ensures scenario in expected ==>
              var row := CompareOne(fixture, builtIn, external, scenario, arrange);
              row.fixture != Missing && row.builtIn != Missing && row.external != Missing
  {
    assert forall name :: name in expected <==> name in fixture;
    assert forall name :: name in expected <==> name in builtIn;
    assert forall name :: name in expected <==> name in external;
    RowSides(fixture, builtIn, external, scenario, arrange);
  }

  // ------------------------------------------------------------------ counts

  /** Counts every value of a column; values that do not occur have no entry. */
  method CountEach<T(==)>(column: seq<T>) returns (counts: map<T, nat>)
    ensures forall x :: multiset(column)[x] == if x in counts then counts[x] else 0
  {
    counts := map[];
    for i := 0 to |column|
      invariant forall x :: multiset(column[..i])[x] == if x in counts then counts[x] else 0
    {
      assert column[..i + 1] == column[..i] + [column[i]];
      counts := counts[column[i] := (if column[i] in counts then counts[column[i]] else 0) + 1];
    }
    assert column[..|column|] == column;
  }

  /** A target's six outcome counts add up to the number of rows. */
  lemma {:induction false} OutcomeCountsAddUp(column: seq<Outcome>)
    ensures var m := multiset(column);
            m[Compliant] + m[NonCompliant] + m[FixtureFailed] + m[NotApplicable] + m[Ambiguous] + m[Missing] == |column|
    decreases |column|
  {
    if column != [] {
      var n := |column| - 1;
      OutcomeCountsAddUp(column[..n]);
      assert column == column[..n] + [column[n]];
      assert multiset(column) == multiset(column[..n]) + multiset{column[n]};
      match column[n] {
        case Compliant =>
        case NonCompliant =>
        case FixtureFailed =>
        case NotApplicable =>
        case Ambiguous =>
        case Missing =>
      }
    }
  }

  /** The eleven classification counts add up to the number of rows. */
  lemma {:induction false} ClassificationCountsAddUp(column: seq<Classification>)
    ensures var m := multiset(column);
            m[AllCompliant] + m[FixtureOnly] + m[BuiltInOnly] + m[ExternalOnly] + m[FixtureAndBuiltIn]
            + m[FixtureAndExternal] + m[GatewaysOnly] + m[Shared] + m[FixtureProblem] + m[NothingApplies] + m[Unclear]
            == |column|
    decreases |column|
  {
    if column != [] {
      var n := |column| - 1;
      ClassificationCountsAddUp(column[..n]);
      assert column == column[..n] + [column[n]];
      assert multiset(column) == multiset(column[..n]) + multiset{column[n]};
      match column[n] {
        case AllCompliant =>
        case FixtureOnly =>
        case BuiltInOnly =>
        case ExternalOnly =>
        case FixtureAndBuiltIn =>
        case FixtureAndExternal =>
        case GatewaysOnly =>
        case Shared =>
        case FixtureProblem =>
        case NothingApplies =>
        case Unclear =>
      }
    }
  }

  /** The outcomes, and the failed checks, of one side of the rows. */
  function OutcomeColumn(rows: seq<ScenarioRow>, side: Side): seq<Outcome> {
    seq(|rows|, i requires 0 <= i < |rows| => OutcomeOn(rows[i], side))
  }

  function OutcomeOn(row: ScenarioRow, side: Side): Outcome {
    match side
    case OfFixture => row.fixture
    case OfBuiltIn => row.builtIn
    case OfExternal => row.external
  }

  function FailedOn(row: ScenarioRow, side: Side): nat {
    match side
    case OfFixture => row.fixtureFailed
    case OfBuiltIn => row.builtInFailed
    case OfExternal => row.externalFailed
  }

  function FailedTotal(rows: seq<ScenarioRow>, side: Side): nat {
    if rows == [] then 0 else FailedTotal(rows[..|rows| - 1], side) + FailedOn(rows[|rows| - 1], side)
  }

  function ClassificationColumn(rows: seq<ScenarioRow>): seq<Classification> {
    seq(|rows|, i requires 0 <= i < |rows| => rows[i].classification)
  }

  /** A printed line of the target table. */
  datatype TargetLine = TargetLine(
    compliant: nat, failed: nat, failedChecks: nat, fixtureFailures: nat, notApplicable: nat, ambiguous: nat,
    missing: nat)

  function CountOf<T>(counts: map<T, nat>, x: T): nat { if x in counts then counts[x] else 0 }

  /** Counts one target's column; the printed counts account for every row once. */
  method CountTarget(rows: seq<ScenarioRow>, side: Side) returns (line: TargetLine)
    ensures var m := multiset(OutcomeColumn(rows, side));
            line == TargetLine(m[Compliant], m[NonCompliant], FailedTotal(rows, side), m[FixtureFailed],
                               m[NotApplicable], m[Ambiguous], m[Missing])
    ensures line.compliant + line.failed + line.fixtureFailures + line.notApplicable + line.ambiguous + line.missing
            == |rows|
  {
    var counts := CountEach(OutcomeColumn(rows, side));
    OutcomeCountsAddUp(OutcomeColumn(rows, side));
    var failedChecks := 0;
    for i := 0 to |rows|
      invariant failedChecks == FailedTotal(rows[..i], side)
    {
      assert rows[..i + 1][..i] == rows[..i];
      failedChecks := failedChecks + FailedOn(rows[i], side);
    }
    assert rows[..|rows|] == rows;
    return TargetLine(CountOf(counts, Compliant), CountOf(counts, NonCompliant), failedChecks,
                      CountOf(counts, FixtureFailed), CountOf(counts, NotApplicable), CountOf(counts, Ambiguous),
                      CountOf(counts, Missing));
  }

  const ALL_CLASSIFICATIONS: seq<Classification> := [
    AllCompliant, FixtureOnly, BuiltInOnly, ExternalOnly, FixtureAndBuiltIn, FixtureAndExternal, GatewaysOnly,
    Shared, FixtureProblem, NothingApplies, Unclear]

  function Total(counts: seq<nat>): nat {
    if counts == [] then 0 else Total(counts[..|counts| - 1]) + counts[|counts| - 1]
  }

  /** Counts the classifications, in the order they are printed. */
  method CountClassifications(rows: seq<ScenarioRow>) returns (table: seq<nat>)
    ensures |table| == |ALL_CLASSIFICATIONS|
    ensures forall k :: 0 <= k < |table| ==> table[k] == multiset(ClassificationColumn(rows))[ALL_CLASSIFICATIONS[k]]
    ensures Total(table) == |rows|
  {
    var counts := CountEach(ClassificationColumn(rows));
    table := [];
    for k := 0 to |ALL_CLASSIFICATIONS|
      invariant |table| == k
      invariant forall j :: 0 <= j < k ==> table[j] == multiset(ClassificationColumn(rows))[ALL_CLASSIFICATIONS[j]]
    {
      table := table + [CountOf(counts, ALL_CLASSIFICATIONS[k])];
    }
    TableAddsUp(ClassificationColumn(rows), table);
  }

  lemma TableAddsUp(column: seq<Classification>, table: seq<nat>)
    requires |table| == |ALL_CLASSIFICATIONS|
    requires forall k :: 0 <= k < |table| ==> table[k] == multiset(column)[ALL_CLASSIFICATIONS[k]]
    ensures Total(table) == |column|
  {
    ClassificationCountsAddUp(column);
    TotalOfEleven(table);
  }

  lemma TotalOfFour(t: seq<nat>, k: nat)
    requires k + 4 <= |t|
    ensures Total(t[..k + 4]) == Total(t[..k]) + t[k] + t[k + 1] + t[k + 2] + t[k + 3]
  {
    hide Total;
    TotalUpTo(t, k + 1);
    TotalUpTo(t, k + 2);
    TotalUpTo(t, k + 3);
    TotalUpTo(t, k + 4);
  }

  lemma TotalOfEleven(t: seq<nat>)
    requires |t| == 11
    ensures Total(t) == t[0] + t[1] + t[2] + t[3] + t[4] + t[5] + t[6] + t[7] + t[8] + t[9] + t[10]
  {
    TotalOfNothing();
    hide Total;
    TotalOfFour(t, 0);
    TotalOfFour(t, 4);
    TotalUpTo(t, 9);
    TotalUpTo(t, 10);
    TotalUpTo(t, 11);
    assert t[..0] == [] && t[..11] == t;
  }

  lemma TotalOfNothing()
    ensures Total([]) == 0
  {
  }

  lemma TotalUpTo(t: seq<nat>, k: nat)
    requires 1 <= k <= |t|
    ensures Total(t[..k]) == Total(t[..k - 1]) + t[k - 1]
  {
    assert t[..k][..k - 1] == t[..k - 1];
  }

  /** What the report is made of. */
  datatype Report = Report(
    rows: seq<ScenarioRow>, fixture: TargetLine, builtIn: TargetLine, external: TargetLine, table: seq<nat>)

  ghost predicate Accounts(line: TargetLine, scenarios: nat) {
    && line.compliant + line.failed + line.notApplicable + line.ambiguous + line.missing == scenarios
    && line.fixtureFailures == 0
  }

  /**
   Compares three result sets and counts the rows: in every line of the target table
   the counts other than fixture failures, which are none, add up to the number of
   different scenarios, and so does the classification table.
   */
  method MakeReport(
    fixture: ResultSet, builtIn: ResultSet, external: ResultSet, arrange: seq<Reference> -> seq<Reference>)
    returns (r: Report)
    ensures forall i :: 0 <= i < |r.rows| ==>
              r.rows[i] == CompareOne(fixture, builtIn, external, r.rows[i].scenario, arrange)
    ensures var scenarios := |fixture.Keys + builtIn.Keys + external.Keys|;
            && |r.rows| == scenarios == Total(r.table)
            && Accounts(r.fixture, scenarios) && Accounts(r.builtIn, scenarios) && Accounts(r.external, scenarios)
  {
    var rows := CompareResultSets(fixture, builtIn, external, arrange);
    hide CompareOne, TextLess;
    NoFixtureFailures(fixture, builtIn, external, arrange, rows, OfFixture);
    NoFixtureFailures(fixture, builtIn, external, arrange, rows, OfBuiltIn);
    NoFixtureFailures(fixture, builtIn, external, arrange, rows, OfExternal);
    var first := CountTarget(rows, OfFixture);
    var second := CountTarget(rows, OfBuiltIn);
    var third := CountTarget(rows, OfExternal);
    var table := CountClassifications(rows);
    return Report(rows, first, second, third, table);
  }

  lemma NoFixtureFailures(
    fixture: ResultSet, builtIn: ResultSet, external: ResultSet, arrange: seq<Reference> -> seq<Reference>,
    rows: seq<ScenarioRow>, side: Side)
    requires forall i :: 0 <= i < |rows| ==>
               rows[i] == CompareOne(fixture, builtIn, external, rows[i].scenario, arrange)
    ensures multiset(OutcomeColumn(rows, side))[FixtureFailed] == 0
  {
    hide CompareOne;
    forall i | 0 <= i < |rows| ensures OutcomeColumn(rows, side)[i] != FixtureFailed {
      RowSides(fixture, builtIn, external, rows[i].scenario, arrange);
    }
  }

  // -------------------------------------------------------------------- rows

  function OutcomeLabel(outcome: Outcome): string {
    match outcome
    case Compliant => "compliant"
    case NonCompliant => "failure"
    case FixtureFailed => "fixture failure"
    case NotApplicable => "not applicable"
    case Ambiguous => "ambiguous"
    case Missing => "missing"
  }

  function ClassificationLabel(classification: Classification): string {
    match classification
    case AllCompliant => "all compliant"
    case FixtureOnly => "fixture-only failure"
    case BuiltInOnly => "built-in dataplane only failure"
    case ExternalOnly => "external dataplane only failure"
    case FixtureAndBuiltIn => "fixture + built-in dataplane failure"
    case FixtureAndExternal => "fixture + external dataplane failure"
    case GatewaysOnly => "both gateways only failure"
    case Shared => "shared failure"
    case FixtureProblem => "fixture failure"
    case NothingApplies => "not applicable"
    case Unclear => "ambiguous"
  }

  function RowCells(row: ScenarioRow): seq<string> {
    [MarkdownCell(row.scenario), OutcomeLabel(row.fixture), OutcomeLabel(row.builtIn), OutcomeLabel(row.external),
     ClassificationLabel(row.classification),
     if row.references == [] then "\U{2014}" else RenderReferences(row.references)]
  }

  /** Every pipe inside a cell follows an odd run of backslashes. */
  ghost predicate PipesFollowOddRuns(row: ScenarioRow) {
    forall i, k: nat :: 0 <= i < |RowCells(row)| && k < |RowCells(row)[i]| && RowCells(row)[i][k] == '|' ==>
      RunBefore(RowCells(row)[i], k) % 2 == 1
  }

  lemma WordsAreCellSafe(text: string)
    requires text != [] && text[|text| - 1] != '\\' && forall i :: 0 <= i < |text| ==> ' ' <= text[i] <= 'z'
    ensures CellSafe(text)
  {
    PlainIsClosed(text);
  }

  lemma OutcomeLabelIsCellSafe(outcome: Outcome)
    ensures CellSafe(OutcomeLabel(outcome))
  {
    hide Closed;
    WordsAreCellSafe(OutcomeLabel(outcome));
  }

  lemma BuiltInOnlyLabel()
    ensures CellSafe(ClassificationLabel(BuiltInOnly))
  {
    hide CellSafe;
    WordsAreCellSafe(ClassificationLabel(BuiltInOnly));
  }

  lemma ExternalOnlyLabel()
    ensures CellSafe(ClassificationLabel(ExternalOnly))
  {
    hide CellSafe;
    WordsAreCellSafe(ClassificationLabel(ExternalOnly));
  }

  lemma FixtureAndBuiltInLabel()
    ensures CellSafe(ClassificationLabel(FixtureAndBuiltIn))
  {
    hide CellSafe;
    WordsAreCellSafe(ClassificationLabel(FixtureAndBuiltIn));
  }

  lemma FixtureAndExternalLabel()
    ensures CellSafe(ClassificationLabel(FixtureAndExternal))
  {
    hide CellSafe;
    WordsAreCellSafe(ClassificationLabel(FixtureAndExternal));
  }

  lemma GatewaysOnlyLabel()
    ensures CellSafe(ClassificationLabel(GatewaysOnly))
  {
    hide CellSafe;
    WordsAreCellSafe(ClassificationLabel(GatewaysOnly));
  }

  lemma FixtureOnlyLabel()
    ensures CellSafe(ClassificationLabel(FixtureOnly))
  {
    hide CellSafe;
    WordsAreCellSafe(ClassificationLabel(FixtureOnly));
  }

  lemma ClassificationLabelIsCellSafe(c: Classification)
    ensures CellSafe(ClassificationLabel(c))
  {
    hide CellSafe;
    match c {
      case BuiltInOnly => BuiltInOnlyLabel();
      case ExternalOnly => ExternalOnlyLabel();
      case FixtureAndBuiltIn => FixtureAndBuiltInLabel();
      case FixtureAndExternal => FixtureAndExternalLabel();
      case GatewaysOnly => GatewaysOnlyLabel();
      case FixtureOnly => FixtureOnlyLabel();
      case _ => WordsAreCellSafe(ClassificationLabel(c));
    }
  }

  lemma RowCellsAreSafe(row: ScenarioRow, i: nat)
    requires i < 6
    ensures CellSafe(RowCells(row)[i])
  {
    hide MarkdownCell, RenderReferences, OutcomeLabel, ClassificationLabel;
    CellIsClosed(row.scenario);
    OutcomeLabelIsCellSafe(row.fixture);
    OutcomeLabelIsCellSafe(row.builtIn);
    OutcomeLabelIsCellSafe(row.external);
    ClassificationLabelIsCellSafe(row.classification);
    if row.references == [] { PlainIsClosed("\U{2014}"); } else { ReferencesAreCellSafe(row.references); }
  }

  /** The scenario table, one line a row, whatever the names, reference ids and URLs are. */
  method RenderScenarioRows(rows: seq<ScenarioRow>) returns (lines: seq<string>)
    ensures |lines| == |rows|
    ensures forall i :: 0 <= i < |lines| ==>
              && '\r' !in lines[i] && '\n' !in lines[i]
              && Cells(lines[i]) == Padded(RowCells(rows[i])) && |Cells(lines[i])| == 6
              && PipesFollowOddRuns(rows[i])
  {
    hide MarkdownCell, RenderReferences, RowCells, Cells, Row, PipesFollowOddRuns;
    lines := [];
    for k := 0 to |rows|
      invariant |lines| == k
      invariant forall i :: 0 <= i < k ==>
                  && '\r' !in lines[i] && '\n' !in lines[i]
                  && Cells(lines[i]) == Padded(RowCells(rows[i])) && |Cells(lines[i])| == 6
                  && PipesFollowOddRuns(rows[i])
    {
      RowIsSafe(rows[k]);
      lines := lines + [Row(RowCells(rows[k]))];
    }
  }

  lemma RowIsSafe(row: ScenarioRow)
    ensures var line := Row(RowCells(row));
            && '\r' !in line && '\n' !in line
            && Cells(line) == Padded(RowCells(row)) && |Cells(line)| == 6
            && PipesFollowOddRuns(row)
  {
    assert |RowCells(row)| == 6;
    hide RowCells, Row, Cells;
    forall i | 0 <= i < 6 ensures CellSafe(RowCells(row)[i]) {
      RowCellsAreSafe(row, i);
    }
    forall i, k: nat | 0 <= i < 6 && k < |RowCells(row)[i]| && RowCells(row)[i][k] == '|'
      ensures RunBefore(RowCells(row)[i], k) % 2 == 1
    {
      ClosedPipesFollowOddRuns(RowCells(row)[i], k);
    }
    RowHasItsCells(RowCells(row));
    RowIsOneLine(RowCells(row));
  }

  /** One placeholder of the report's format string, with what follows it. */
  function Slot(cell: string): string { " " + cell + " |" }

  /** The report's format string is the padded row. */
  lemma RowIsTheFormat(a: string, b: string, c: string, d: string, e: string, f: string)
    ensures Row([a, b, c, d, e, f]) == "|" + Slot(a) + Slot(b) + Slot(c) + Slot(d) + Slot(e) + Slot(f)
  {
    assert [] + [a] == [a] && [a] + [b] == [a, b] && [a, b] + [c] == [a, b, c];
    assert [a, b, c] + [d] == [a, b, c, d] && [a, b, c, d] + [e] == [a, b, c, d, e];
    assert [a, b, c, d, e] + [f] == [a, b, c, d, e, f];
    assert Row([]) == "|";
    hide Row, Slot;
    RowStep([], a);
    RowStep([a], b);
    RowStep([a, b], c);
    RowStep([a, b, c], d);
    RowStep([a, b, c, d], e);
    RowStep([a, b, c, d, e], f);
  }

  lemma RowStep(cells: seq<string>, cell: string)
    ensures Row(cells + [cell]) == Row(cells) + Slot(cell)
  {
    assert (cells + [cell])[..|cells|] == cells;
    assert Row(cells) + (" " + cell + " ") + "|" == Row(cells) + Slot(cell);
  }
}
