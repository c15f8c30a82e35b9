/**
 Evaluating conformance results against the checked-in baselines of a client
 version, server era and direction, and listing the replacements that blessing
 would commit.
 */
module Baselines {
  import opened Outcomes
  import opened FileTree
  import opened Findings

  datatype Direction = Server | Client

  datatype Era = Dual | Legacy | Modern

  datatype Lane = FixtureDirect | BuiltInDataPlane | ExternalDataPlane

  datatype CheckStatus = Success | Failed | Warned | Skipped | Info | Unknown(text: string)

  datatype Check = Check(id: string, name: Option<string>, status: CheckStatus)

  datatype Scenario = Scenario(name: string, checks: seq<Check>)

  /** The scenarios of one lane in name order. */
  type Results = seq<Scenario>

  datatype Document = Document(findings: seq<Finding>)

  /** A file of the baseline tree: a parsed document, or bytes that do not parse as one. */
  datatype Content = Yaml(document: Document) | Unparsable(bytes: string)

  datatype Comparison = Comparison(
    lane: Lane, actual: seq<Finding>, expected: seq<Finding>, unexpected: seq<Finding>, stale: seq<Finding>)
  {
    predicate Matches() { unexpected == [] && stale == [] }
  }

  datatype Update = Update(path: Path, document: Document)

  datatype Evaluation = Evaluation(comparisons: seq<Comparison>, updates: seq<Update>)

  datatype EvaluationError =
    | NothingSelected | MissingFixtureLane | MissingLane | UnknownStatus | UnreadableBaseline | MissingBaseline

  const ALL_LANES: seq<Lane> := [FixtureDirect, BuiltInDataPlane, ExternalDataPlane]

  const MAX_BASELINE_BYTES: nat := 1024 * 1024

  // ----------------------------------------------------------------- paths

  function Slug(lane: Lane): string {
    match lane
    case FixtureDirect => "fixture-direct"
    case BuiltInDataPlane => "built-in-data-plane"
    case ExternalDataPlane => "external-data-plane"
  }

  function EraLabel(era: Era): string {
    match era
    case Dual => "dual"
    case Legacy => "legacy"
    case Modern => "modern"
  }

  /** The path of a baseline below the root; a version is the components of its text. */
  function BaselinePath(version: Path, era: Era, direction: Direction, lane: Lane): Path {
    version + [EraLabel(era)] + (if direction == Client then ["client"] else []) + [Slug(lane) + ".yml"]
  }

  /** No two lanes of the whole matrix share a baseline file. */
  lemma BaselinePathIsInjective(
    v: Path, e: Era, d: Direction, l: Lane, v': Path, e': Era, d': Direction, l': Lane)
    requires BaselinePath(v, e, d, l) == BaselinePath(v', e', d', l')
    ensures v == v' && e == e' && d == d' && l == l'
  {
    var p, p' := BaselinePath(v, e, d, l), BaselinePath(v', e', d', l');
    var n := |p|;
    assert p[n - 1] == Slug(l) + ".yml" && p'[n - 1] == Slug(l') + ".yml";
    assert (Slug(l) + ".yml")[0] == (Slug(l') + ".yml")[0];
    assert p[n - 2] == (if d == Client then "client" else EraLabel(e));
    assert p'[n - 2] == (if d' == Client then "client" else EraLabel(e'));
    assert EraLabel(e)[0] != "client"[0] && EraLabel(e')[0] != "client"[0];
    assert d == d';
    var k := if d == Client then 3 else 2;
    assert p[n - k] == EraLabel(e) && p'[n - k] == EraLabel(e');
    assert v == p[..n - k] == v';
    assert EraLabel(e)[0] == EraLabel(e')[0];
  }

  // -------------------------------------------------------------- findings

  predicate IsScored(status: CheckStatus) { status.Failed? || status.Warned? }

  function FindingOf(scenario: string, check: Check): Finding {
    Finding(scenario, check.id, if check.name.Some? then check.name.value else "",
            if check.status.Failed? then Failure else Warning)
  }

  ghost predicate AllKnown(results: Results) {
    forall i, j :: 0 <= i < |results| && 0 <= j < |results[i].checks| ==> !results[i].checks[j].status.Unknown?
  }

  /** `f` is the finding of some failed or warned check. */
  ghost predicate Reported(results: Results, f: Finding) {
    exists i, j :: 0 <= i < |results| && 0 <= j < |results[i].checks| &&
      IsScored(results[i].checks[j].status) && f == FindingOf(results[i].name, results[i].checks[j])
  }

  /** The outcome of scoring one lane: the reported findings, unless some status is unknown. */
  ghost predicate Scores(results: Results, r: Option<seq<Finding>>) {
    && (r.Some? <==> AllKnown(results))
    && (r.Some? ==> StrictlySorted(r.value) && forall f :: f in r.value <==> Reported(results, f))
  }

  lemma ReportedAppend(results: Results, name: string, checks: seq<Check>, check: Check, f: Finding)
    ensures Reported(results + [Scenario(name, checks + [check])], f) <==>
              Reported(results + [Scenario(name, checks)], f) ||
              (IsScored(check.status) && f == FindingOf(name, check))
  {
    var n := |results|;
    var before, after := results + [Scenario(name, checks)], results + [Scenario(name, checks + [check])];
    forall i, j | 0 <= i < |before| && 0 <= j < |before[i].checks|
      ensures after[i].name == before[i].name && j < |after[i].checks| && after[i].checks[j] == before[i].checks[j]
    {
    }
    if Reported(before, f) {
      var i, j :| 0 <= i < |before| && 0 <= j < |before[i].checks| &&
        IsScored(before[i].checks[j].status) && f == FindingOf(before[i].name, before[i].checks[j]);
      assert f == FindingOf(after[i].name, after[i].checks[j]);
    }
    if IsScored(check.status) && f == FindingOf(name, check) {
      assert after[n].checks[|checks|] == check;
    }
    if Reported(after, f) {
      var i, j :| 0 <= i < |after| && 0 <= j < |after[i].checks| &&
        IsScored(after[i].checks[j].status) && f == FindingOf(after[i].name, after[i].checks[j]);
      if i < n || j < |checks| { assert f == FindingOf(before[i].name, before[i].checks[j]); }
    }
  }

  method ScoredFindings(results: Results) returns (r: Option<seq<Finding>>)
    ensures Scores(results, r)
  {
    var findings: seq<Finding> := [];
    for i := 0 to |results|
      invariant AllKnown(results[..i]) && StrictlySorted(findings)
      invariant forall f :: f in findings <==> Reported(results[..i], f)
    {
      var name, checks := results[i].name, results[i].checks;
      assert forall f :: Reported(results[..i] + [Scenario(name, checks[..0])], f) <==> Reported(results[..i], f) by {
        forall f ensures Reported(results[..i] + [Scenario(name, checks[..0])], f) <==> Reported(results[..i], f) {
          EmptyScenario(results[..i], name, f);
        }
      }
      for j := 0 to |checks|
        invariant StrictlySorted(findings)
        invariant forall k :: 0 <= k < j ==> !checks[k].status.Unknown?
        invariant forall f :: f in findings <==> Reported(results[..i] + [Scenario(name, checks[..j])], f)
      {
        var check := checks[j];
        assert checks[..j + 1] == checks[..j] + [check];
        forall f {
          ReportedAppend(results[..i], name, checks[..j], check, f);
        }
        if check.status.Unknown? {
          assert results[i].checks[j].status.Unknown?;
          return None;
        }
        if IsScored(check.status) {
          findings := Insert(findings, FindingOf(name, check));
        }
      }
      assert checks[..|checks|] == checks;
      assert results[..i + 1] == results[..i] + [Scenario(name, checks)];
    }
    assert results[..|results|] == results;
    return Some(findings);
  }

  lemma EmptyScenario(results: Results, name: string, f: Finding)
    ensures Reported(results + [Scenario(name, [])], f) <==> Reported(results, f)
  {
    var after := results + [Scenario(name, [])];
    assert forall i :: 0 <= i < |results| ==> after[i] == results[i];
    if Reported(results, f) {
      var i, j :| 0 <= i < |results| && 0 <= j < |results[i].checks| &&
        IsScored(results[i].checks[j].status) && f == FindingOf(results[i].name, results[i].checks[j]);
      assert f == FindingOf(after[i].name, after[i].checks[j]);
    }
  }

  // ------------------------------------------------------------ evaluation

  datatype Loaded = Absent | Rejected | Present(document: Document)

  /** A file is accepted as a baseline when it is small enough, parses, and is strictly sorted. */
  predicate Acceptable(content: Content, size: Content -> nat) {
    size(content) <= MAX_BASELINE_BYTES && content.Yaml? && StrictlySorted(content.document.findings)
  }

  function ReadBaseline(root: Option<Node<Content>>, path: Path, size: Content -> nat): Loaded {
    if root.None? then Absent
    else
      match Inspect(root.value, path)
      case Missing => Absent
      case Found(File(content)) => if Acceptable(content, size) then Present(content.document) else Rejected
      case _ => Rejected
  }

  /** Everything an evaluation reads. */
  datatype Gate = Gate(
    direction: Direction, results: map<Lane, Results>, selected: set<Lane>,
    version: Path, era: Era, size: Content -> nat)
  {
    function PathOf(lane: Lane): Path { BaselinePath(version, era, direction, lane) }

    predicate Subtracts(lane: Lane) { direction == Server && lane != FixtureDirect }

    /** `f` is attributed to the lane: reported there, and not already by the fixture itself. */
    ghost predicate Attributed(lane: Lane, f: Finding)
      requires lane in results
    {
      && Reported(results[lane], f)
      && !(Subtracts(lane) && FixtureDirect in results && Reported(results[FixtureDirect], f))
    }

    ghost predicate Evaluable(root: Option<Node<Content>>, bless: bool) {
      && selected != {}
      && (direction == Server && (BuiltInDataPlane in selected || ExternalDataPlane in selected) ==>
            FixtureDirect in results)
      && selected <= results.Keys
      && (FixtureDirect in results ==> AllKnown(results[FixtureDirect]))
      && forall lane :: lane in selected ==> Ready(lane, root, bless)
    }

    /** The lane has only known statuses and a readable baseline, or is being blessed without one. */
    ghost predicate Ready(lane: Lane, root: Option<Node<Content>>, bless: bool)
      requires lane in results
    {
      && AllKnown(results[lane])
      && !ReadBaseline(root, PathOf(lane), size).Rejected?
      && (ReadBaseline(root, PathOf(lane), size).Absent? ==> bless)
    }

    ghost predicate Compared(c: Comparison, root: Option<Node<Content>>) {
      var loaded := ReadBaseline(root, PathOf(c.lane), size);
      && c.lane in results
      && StrictlySorted(c.actual) && (forall f :: f in c.actual <==> Attributed(c.lane, f))
      && c.expected == (if loaded.Present? then loaded.document.findings else [])
      && (forall f :: f in c.unexpected <==> f in c.actual && f !in c.expected)
      && (forall f :: f in c.stale <==> f in c.expected && f !in c.actual)
    }

    /** What an evaluation returns: one comparison a selected lane, in lane order. */
    ghost predicate EvaluatesTo(root: Option<Node<Content>>, bless: bool, r: Result<Evaluation, EvaluationError>) {
      && (r.Ok? <==> Evaluable(root, bless))
      && (r.Ok? ==>
            && LanesOf(r.value.comparisons) == Chosen(ALL_LANES, selected)
            && (forall i :: 0 <= i < |r.value.comparisons| ==> Compared(r.value.comparisons[i], root))
            && r.value.updates == if bless then Replacements(r.value.comparisons) else [])
    }

    /** Blessing replaces each lane's baseline by its attributed findings. */
    function Replacements(comparisons: seq<Comparison>): seq<Update> {
      seq(|comparisons|, i requires 0 <= i < |comparisons| =>
        Update(PathOf(comparisons[i].lane), Document(comparisons[i].actual)))
    }
  }

  function LanesOf(comparisons: seq<Comparison>): seq<Lane> {
    seq(|comparisons|, i requires 0 <= i < |comparisons| => comparisons[i].lane)
  }

  function Chosen(lanes: seq<Lane>, selected: set<Lane>): (r: seq<Lane>)
    ensures forall lane :: lane in r <==> lane in lanes && lane in selected
  {
    if lanes == [] then []
    else
      var last := lanes[|lanes| - 1];
      assert lanes == lanes[..|lanes| - 1] + [last];
      Chosen(lanes[..|lanes| - 1], selected) + (if last in selected then [last] else [])
  }

  /** Collecting a list into an ordered set. */
  function Collect(findings: seq<Finding>): (r: seq<Finding>)
    ensures StrictlySorted(r) && forall f :: f in r <==> f in findings
  {
    if findings == [] then []
    else
      assert findings == findings[..|findings| - 1] + [findings[|findings| - 1]];
      Insert(Collect(findings[..|findings| - 1]), findings[|findings| - 1])
  }

  method CompareLane(gate: Gate, direct: seq<Finding>, root: Option<Node<Content>>, lane: Lane, bless: bool)
    returns (r: Result<Comparison, EvaluationError>)
    requires lane in gate.results
    requires StrictlySorted(direct)
    requires forall f :: f in direct <==> FixtureDirect in gate.results && Reported(gate.results[FixtureDirect], f)
    ensures r.Ok? <==> gate.Ready(lane, root, bless)
    ensures r.Ok? ==> r.value.lane == lane && gate.Compared(r.value, root)
  {
    var scored := ScoredFindings(gate.results[lane]);
    if scored.None? { return Err(UnknownStatus); }
    var actual := scored.value;
    if gate.Subtracts(lane) {
      DifferenceSorted(actual, direct);
      actual := Difference(actual, direct);
    }
    var loaded := ReadBaseline(root, gate.PathOf(lane), gate.size);
    if loaded.Rejected? { return Err(UnreadableBaseline); }
    if loaded.Absent? && !bless { return Err(MissingBaseline); }
    var expected := [];
    if loaded.Present? {
      expected := Collect(loaded.document.findings);
      SortedListingIsUnique(expected, loaded.document.findings);
    }
    return Ok(Comparison(lane, actual, expected, Difference(actual, expected), Difference(expected, actual)));
  }

  method Evaluate(gate: Gate, root: Option<Node<Content>>, bless: bool)
    returns (r: Result<Evaluation, EvaluationError>)
    ensures gate.EvaluatesTo(root, bless, r)
  {
    hide Gate.Compared, Gate.Ready, AllKnown, Reported, Chosen, LanesOf, Gate.Replacements;
    if gate.selected == {} { return Err(NothingSelected); }
    var routed := BuiltInDataPlane in gate.selected || ExternalDataPlane in gate.selected;
    if gate.direction == Server && routed && FixtureDirect !in gate.results { return Err(MissingFixtureLane); }
    if !(gate.selected <= gate.results.Keys) { return Err(MissingLane); }

    var direct: seq<Finding> := [];
    if FixtureDirect in gate.results {
      var scored := ScoredFindings(gate.results[FixtureDirect]);
      if scored.None? { return Err(UnknownStatus); }
      direct := scored.value;
    }
    forall lane: Lane ensures lane in ALL_LANES { LaneIsListed(lane); }
    r := EvaluateLanes(gate, direct, ALL_LANES, root, bless);
  }

  lemma LaneIsListed(lane: Lane)
    ensures lane in ALL_LANES
  {
    assert ALL_LANES[0] == FixtureDirect && ALL_LANES[1] == BuiltInDataPlane && ALL_LANES[2] == ExternalDataPlane;
  }

  lemma ComparisonAppended(gate: Gate, comparisons: seq<Comparison>, c: Comparison, lanes: seq<Lane>, k: nat)
    requires k < |lanes| && c.lane == lanes[k] && c.lane in gate.selected
    ensures Chosen(lanes[..k + 1], gate.selected) == Chosen(lanes[..k], gate.selected) + [c.lane]
    ensures LanesOf(comparisons + [c]) == LanesOf(comparisons) + [c.lane]
    ensures gate.Replacements(comparisons + [c]) ==
            gate.Replacements(comparisons) + [Update(gate.PathOf(c.lane), Document(c.actual))]
  {
    assert lanes[..k + 1][..k] == lanes[..k];
  }

  method EvaluateLanes(gate: Gate, direct: seq<Finding>, lanes: seq<Lane>, root: Option<Node<Content>>, bless: bool)
    returns (r: Result<Evaluation, EvaluationError>)
    requires gate.selected <= gate.results.Keys
    requires StrictlySorted(direct)
    requires forall f :: f in direct <==> FixtureDirect in gate.results && Reported(gate.results[FixtureDirect], f)
    ensures r.Ok? <==> forall lane :: lane in lanes && lane in gate.selected ==> gate.Ready(lane, root, bless)
    ensures r.Ok? ==>
              && LanesOf(r.value.comparisons) == Chosen(lanes, gate.selected)
              && (forall i :: 0 <= i < |r.value.comparisons| ==> gate.Compared(r.value.comparisons[i], root))
              && r.value.updates == if bless then gate.Replacements(r.value.comparisons) else []
  {
    hide Gate.Compared, Gate.Ready, Gate.Replacements, LanesOf, AllKnown, Reported, StrictlySorted;
    assert LanesOf([]) == [] && gate.Replacements([]) == [] by { NoComparisons(gate); }
    var comparisons: seq<Comparison> := [];
    var updates: seq<Update> := [];
    for k := 0 to |lanes|
      invariant LanesOf(comparisons) == Chosen(lanes[..k], gate.selected)
      invariant forall i :: 0 <= i < |comparisons| ==> gate.Compared(comparisons[i], root)
      invariant updates == if bless then gate.Replacements(comparisons) else []
      invariant forall i :: 0 <= i < k && lanes[i] in gate.selected ==> gate.Ready(lanes[i], root, bless)
    {
      var lane := lanes[k];
      assert lanes[..k + 1][..k] == lanes[..k];
      if lane !in gate.selected { continue; }
      var compared := CompareLane(gate, direct, root, lane, bless);
      if compared.Err? { return Err(compared.error); }
      ComparisonAppended(gate, comparisons, compared.value, lanes, k);
      comparisons := comparisons + [compared.value];
      if bless {
        updates := updates + [Update(gate.PathOf(lane), Document(compared.value.actual))];
      }
    }
    assert lanes[..|lanes|] == lanes;
    return Ok(Evaluation(comparisons, updates));
  }

  lemma NoComparisons(gate: Gate)
    ensures LanesOf([]) == [] && gate.Replacements([]) == []
  {
  }
}
