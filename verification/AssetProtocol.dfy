/**
 Materializing the embedded runtime assets. Any number of processes build private
 temporary trees and race to rename one of them to the versioned directory; a
 loser validates what the winner installed. Every I/O operation may fail, and a
 failed write or removal may leave anything in the private tree.
 */
module AssetProtocol {
  import opened Outcomes

  /** A directory as the contents of its files by relative path. */
  type Tree = map<string, string>

  datatype Asset = Asset(path: string, contents: string)

  const COMPLETE_MARKER: string := ".complete"

  /** The assets built into the binary, in order, and its version. */
  datatype Embedded = Embedded(assets: seq<Asset>, version: string) {
    predicate WellFormed() {
      && (forall i :: 0 <= i < |assets| ==> assets[i].path != COMPLETE_MARKER)
      && (forall i, j :: 0 <= i < j < |assets| ==> assets[i].path != assets[j].path)
    }

    /** The tree after the first `n` assets have been written. */
    function Prefix(n: nat): Tree
      requires n <= |assets|
    {
      if n == 0 then map[] else Prefix(n - 1)[assets[n - 1].path := assets[n - 1].contents]
    }

    /** The whole tree: every asset and the completion marker. */
    function Complete(): Tree { Prefix(|assets|)[COMPLETE_MARKER := version] }

    /** Validation has found nothing wrong with the marker and the first `n` assets. */
    predicate Checked(tree: Tree, n: nat)
      requires n <= |assets|
    {
      && COMPLETE_MARKER in tree && tree[COMPLETE_MARKER] == version
      && forall i :: 0 <= i < n ==> assets[i].path in tree && tree[assets[i].path] == assets[i].contents
    }

    predicate Valid(tree: Tree) { Checked(tree, |assets|) }

    lemma {:induction false} PrefixHolds(n: nat, i: nat)
      requires WellFormed() && i < n <= |assets|
      ensures assets[i].path in Prefix(n) && Prefix(n)[assets[i].path] == assets[i].contents
      decreases n
    {
      if i < n - 1 { PrefixHolds(n - 1, i); }
    }

    lemma CompleteIsValid()
      requires WellFormed()
      ensures Valid(Complete())
    {
      forall i | 0 <= i < |assets|
        ensures assets[i].path in Complete() && Complete()[assets[i].path] == assets[i].contents
      {
        PrefixHolds(|assets|, i);
      }
    }
  }

  /** Writes a private tree; any write may fail, and then part of the tree is there. */
  method WriteAssetTree(e: Embedded) returns (ok: bool, tree: Tree)
    ensures ok ==> tree == e.Complete()
  {
    tree := map[];
    ok := *;
    if !ok { return; }
    for n := 0 to |e.assets|
      invariant tree == e.Prefix(n)
    {
      ok := *;
      if !ok { return; }
      tree := tree[e.assets[n].path := e.assets[n].contents];
    }
    ok := *;
    if ok { tree := tree[COMPLETE_MARKER := e.version]; }
  }

  /** Compares a directory with the embedded set, the marker first. */
  method ValidateAssets(e: Embedded, tree: Tree) returns (ok: bool)
    ensures ok <==> e.Valid(tree)
  {
    if COMPLETE_MARKER !in tree || tree[COMPLETE_MARKER] != e.version { return false; }
    for n := 0 to |e.assets|
      invariant e.Checked(tree, n)
    {
      var asset := e.assets[n];
      if asset.path !in tree || tree[asset.path] != asset.contents { return false; }
    }
    return true;
  }

  /** Why the versioned directory is being validated. */
  datatype Reason = Found | LostRace | Final

  /** Where a process is; `Validating(_, n)` has passed `n` of the marker and the assets. */
  datatype Process =
    | Begin
    | Creating
    | Writing(written: nat)
    | Renaming
    | RenameFailed
    | Validating(reason: Reason, passed: nat)
    | Cleaning(installed: bool)
    | Succeeded
    | Failed

  datatype State = State(
    destination: Option<Tree>, temporary: map<nat, Tree>, processes: seq<Process>, faults: nat)
  {
    function To(p: nat, next: Process): State
      requires p < |processes|
    {
      this.(processes := processes[p := next])
    }

    function Fault(): State { this.(faults := faults + 1) }
  }

  function AfterValidation(reason: Reason, ok: bool): Process {
    if reason == LostRace then Cleaning(ok) else if ok then Succeeded else Failed
  }

  /** Whether the n-th thing validation reads is as it should be. */
  predicate Agrees(e: Embedded, tree: Tree, n: nat)
    requires n <= |e.assets|
  {
    if n == 0 then COMPLETE_MARKER in tree && tree[COMPLETE_MARKER] == e.version
    else e.assets[n - 1].path in tree && tree[e.assets[n - 1].path] == e.assets[n - 1].contents
  }

  /** A rename can only land where nothing, or an empty directory, is. */
  predicate Vacant(destination: Option<Tree>) {
    destination.None? || destination.value == map[]
  }

  /** Looks for the versioned directory; the check, or creating its parent, may err. */
  ghost predicate BeginStep(s: State, p: nat, next: State)
    requires p < |s.processes|
  {
    || (s.destination.Some? && next == s.To(p, Validating(Found, 0)))
    || (s.destination.None? && next == s.To(p, Creating))
    || next == s.Fault().To(p, Creating)
    || next == s.Fault().To(p, Failed)
  }

  ghost predicate CreateStep(s: State, p: nat, next: State)
    requires p < |s.processes|
  {
    || next == s.(temporary := s.temporary[p := map[]]).To(p, Writing(0))
    || next == s.Fault().To(p, Cleaning(false))
  }

  /** Writes the next asset, or the marker after the last one. */
  ghost predicate WriteStep(e: Embedded, s: State, p: nat, n: nat, next: State)
    requires p < |s.processes|
  {
    || (p in s.temporary && n < |e.assets| &&
        next == s.(temporary := s.temporary[p := s.temporary[p][e.assets[n].path := e.assets[n].contents]])
                 .To(p, Writing(n + 1)))
    || (p in s.temporary && n == |e.assets| &&
        next == s.(temporary := s.temporary[p := s.temporary[p][COMPLETE_MARKER := e.version]]).To(p, Renaming))
    || (p in next.temporary &&
        next == s.(temporary := s.temporary[p := next.temporary[p]]).Fault().To(p, Cleaning(false)))
  }

  ghost predicate RenameStep(s: State, p: nat, next: State)
    requires p < |s.processes|
  {
    || (p in s.temporary && Vacant(s.destination) &&
        next == s.(destination := Some(s.temporary[p]), temporary := s.temporary - {p}).To(p, Cleaning(true)))
    || (!Vacant(s.destination) && next == s.To(p, RenameFailed))
    || next == s.Fault().To(p, RenameFailed)
  }

  ghost predicate LoseStep(s: State, p: nat, next: State)
    requires p < |s.processes|
  {
    || (s.destination.Some? && next == s.To(p, Validating(LostRace, 0)))
    || (s.destination.None? && next == s.To(p, Cleaning(false)))
    || next == s.Fault().To(p, Cleaning(false))
  }

  ghost predicate ValidateStep(e: Embedded, s: State, p: nat, reason: Reason, n: nat, next: State)
    requires p < |s.processes|
  {
    || (n <= |e.assets| && s.destination.Some? && Agrees(e, s.destination.value, n) &&
        next == s.To(p, Validating(reason, n + 1)))
    || (n <= |e.assets| && !(s.destination.Some? && Agrees(e, s.destination.value, n)) &&
        next == s.To(p, AfterValidation(reason, false)))
    || (n == |e.assets| + 1 && next == s.To(p, AfterValidation(reason, true)))
    || next == s.Fault().To(p, AfterValidation(reason, false))
  }

  ghost predicate CleanStep(s: State, p: nat, installed: bool, next: State)
    requires p < |s.processes|
  {
    var after := if installed then Validating(Final, 0) else Failed;
    || next == s.(temporary := s.temporary - {p}).To(p, after)
    || (p in next.temporary &&
        next == s.(temporary := s.temporary[p := next.temporary[p]]).Fault().To(p, after))
  }

  /** One operation of process `p`. */
  ghost predicate Step(e: Embedded, s: State, p: nat, next: State)
    requires p < |s.processes|
  {
    match s.processes[p]
    case Begin => BeginStep(s, p, next)
    case Creating => CreateStep(s, p, next)
    case Writing(n) => WriteStep(e, s, p, n, next)
    case Renaming => RenameStep(s, p, next)
    case RenameFailed => LoseStep(s, p, next)
    case Validating(reason, n) => ValidateStep(e, s, p, reason, n, next)
    case Cleaning(installed) => CleanStep(s, p, installed, next)
    case _ => false
  }

  ghost predicate Initial(s: State, destination: Option<Tree>, n: nat) {
    && s.destination == destination && s.temporary == map[] && s.faults == 0
    && |s.processes| == n && forall p :: 0 <= p < n ==> s.processes[p] == Begin
  }

  /** Some process takes a step. */
  ghost predicate Next(e: Embedded, s: State, next: State) {
    exists p: nat :: p < |s.processes| && Step(e, s, p, next)
  }

  /** A run of `n` processes from a starting directory, in any interleaving. */
  ghost predicate Run(e: Embedded, destination: Option<Tree>, n: nat, run: seq<State>) {
    && run != [] && Initial(run[0], destination, n)
    && forall i :: 0 <= i < |run| - 1 ==> Next(e, run[i], run[i + 1])
  }

  // ---------------------------------------------------------------- safety

  /** What a process knows where it is. */
  ghost predicate Knows(e: Embedded, s: State, p: nat)
    requires p < |s.processes|
  {
    match s.processes[p]
    case Writing(n) => n <= |e.assets| && p in s.temporary && s.temporary[p] == e.Prefix(n)
    case Renaming => p in s.temporary && s.temporary[p] == e.Complete()
    case Validating(_, n) =>
      n <= |e.assets| + 1 && (n > 0 ==> s.destination.Some? && e.Checked(s.destination.value, n - 1))
    case Cleaning(installed) => installed ==> s.destination.Some? && e.Valid(s.destination.value)
    case Succeeded => s.destination.Some? && e.Valid(s.destination.value)
    case _ => true
  }

  /** The directory is as it was found, or it was vacant and holds the complete tree. */
  ghost predicate NeverPartial(e: Embedded, destination: Option<Tree>, s: State) {
    s.destination == destination || (Vacant(destination) && s.destination == Some(e.Complete()))
  }

  ghost predicate Invariant(e: Embedded, destination: Option<Tree>, s: State) {
    && NeverPartial(e, destination, s)
    && forall p :: 0 <= p < |s.processes| ==> Knows(e, s, p)
  }

  /** The directory can only change from vacant to complete. */
  lemma DestinationStep(e: Embedded, s: State, p: nat, next: State)
    requires p < |s.processes| && Step(e, s, p, next) && Knows(e, s, p)
    ensures next.destination == s.destination ||
            (Vacant(s.destination) && next.destination == Some(e.Complete()))
    ensures next.faults >= s.faults
  {
    hide Embedded.Checked, Embedded.Valid, Embedded.Prefix, Embedded.Complete, Agrees, Vacant;
  }

  /** Where a process can go from where it is. */
  ghost predicate Follows(e: Embedded, process: Process, next: Process) {
    var a := |e.assets|;
    match process
    case Begin => next == Validating(Found, 0) || next == Creating || next == Failed
    case Creating => next == Writing(0) || next == Cleaning(false)
    case Writing(n) => (n < a && next == Writing(n + 1)) || (n == a && next == Renaming) || next == Cleaning(false)
    case Renaming => next == Cleaning(true) || next == RenameFailed
    case RenameFailed => next == Validating(LostRace, 0) || next == Cleaning(false)
    case Validating(reason, n) =>
      || (n <= a && next == Validating(reason, n + 1))
      || next == AfterValidation(reason, true) || next == AfterValidation(reason, false)
    case Cleaning(installed) => next == if installed then Validating(Final, 0) else Failed
    case _ => false
  }

  /** Process `p` goes on, and no other process or temporary tree is touched. */
  ghost predicate Framed(e: Embedded, s: State, p: nat, next: State)
    requires p < |s.processes|
  {
    && |next.processes| == |s.processes| && next.processes == s.processes[p := next.processes[p]]
    && Follows(e, s.processes[p], next.processes[p])
    && forall q: nat :: q != p ==> SameTemporary(s, next, q)
  }

  ghost predicate SameTemporary(s: State, next: State, q: nat) {
    (q in next.temporary <==> q in s.temporary) && (q in s.temporary ==> next.temporary[q] == s.temporary[q])
  }

  lemma BeginMoves(e: Embedded, s: State, p: nat, next: State)
    requires p < |s.processes| && s.processes[p] == Begin && BeginStep(s, p, next)
    ensures Framed(e, s, p, next)
  {
  }

  lemma CreateMoves(e: Embedded, s: State, p: nat, next: State)
    requires p < |s.processes| && s.processes[p] == Creating && CreateStep(s, p, next)
    ensures Framed(e, s, p, next)
  {
  }

  lemma WriteMoves(e: Embedded, s: State, p: nat, n: nat, next: State)
    requires p < |s.processes| && s.processes[p] == Writing(n) && WriteStep(e, s, p, n, next)
    ensures Framed(e, s, p, next)
  {
  }

  lemma RenameMoves(e: Embedded, s: State, p: nat, next: State)
    requires p < |s.processes| && s.processes[p] == Renaming && RenameStep(s, p, next)
    ensures Framed(e, s, p, next)
  {
  }

  lemma LoseMoves(e: Embedded, s: State, p: nat, next: State)
    requires p < |s.processes| && s.processes[p] == RenameFailed && LoseStep(s, p, next)
    ensures Framed(e, s, p, next)
  {
  }

  lemma ValidateMoves(e: Embedded, s: State, p: nat, reason: Reason, n: nat, next: State)
    requires p < |s.processes| && s.processes[p] == Validating(reason, n) && ValidateStep(e, s, p, reason, n, next)
    ensures Framed(e, s, p, next)
  {
    hide Agrees, AfterValidation;
  }

  lemma CleanMoves(e: Embedded, s: State, p: nat, installed: bool, next: State)
    requires p < |s.processes| && s.processes[p] == Cleaning(installed) && CleanStep(s, p, installed, next)
    ensures Framed(e, s, p, next)
  {
  }

  /** A step moves one process and touches no other's temporary tree. */
  lemma FrameStep(e: Embedded, s: State, p: nat, next: State)
    requires p < |s.processes| && Step(e, s, p, next)
    ensures Framed(e, s, p, next)
  {
    hide BeginStep, CreateStep, WriteStep, RenameStep, LoseStep, ValidateStep, CleanStep, Framed;
    match s.processes[p] {
      case Begin => BeginMoves(e, s, p, next);
      case Creating => CreateMoves(e, s, p, next);
      case Writing(n) => WriteMoves(e, s, p, n, next);
      case Renaming => RenameMoves(e, s, p, next);
      case RenameFailed => LoseMoves(e, s, p, next);
      case Validating(reason, n) => ValidateMoves(e, s, p, reason, n, next);
      case Cleaning(installed) => CleanMoves(e, s, p, installed, next);
      case _ =>
    }
  }

  lemma KnowsStep(e: Embedded, s: State, p: nat, next: State)
    requires e.WellFormed() && p < |s.processes| && Step(e, s, p, next) && Knows(e, s, p)
    ensures |next.processes| == |s.processes| && Knows(e, next, p)
  {
    e.CompleteIsValid();
    match s.processes[p] {
      case Writing(n) => if n < |e.assets| { PrefixStep(e, n); }
      case Validating(_, n) =>
        if n <= |e.assets| && s.destination.Some? { CheckedStep(e, s.destination.value, n); }
      case _ =>
    }
    hide Embedded.Checked, Embedded.Prefix, Agrees, Vacant;
  }

  lemma PrefixStep(e: Embedded, n: nat)
    requires n < |e.assets|
    ensures e.Prefix(0) == map[] && e.Prefix(n + 1) == e.Prefix(n)[e.assets[n].path := e.assets[n].contents]
  {
  }

  lemma CheckedStep(e: Embedded, tree: Tree, n: nat)
    requires n <= |e.assets|
    ensures Agrees(e, tree, n) && (n > 0 ==> e.Checked(tree, n - 1)) ==> e.Checked(tree, n)
  {
  }

  lemma InvariantStep(e: Embedded, destination: Option<Tree>, s: State, next: State)
    requires e.WellFormed() && Invariant(e, destination, s) && Next(e, s, next)
    ensures Invariant(e, destination, next)
  {
    var p: nat :| p < |s.processes| && Step(e, s, p, next);
    DestinationStep(e, s, p, next);
    FrameStep(e, s, p, next);
    KnowsStep(e, s, p, next);
    hide Step, Follows;
    forall q | 0 <= q < |next.processes| ensures Knows(e, next, q) {
      if q != p { assert Knows(e, s, q) && SameTemporary(s, next, q); }
    }
  }

  lemma {:induction false} InvariantOverRuns(e: Embedded, destination: Option<Tree>, n: nat, run: seq<State>, i: nat)
    requires e.WellFormed() && Run(e, destination, n, run) && i < |run|
    ensures Invariant(e, destination, run[i]) && |run[i].processes| == n
    decreases i
  {
    if i > 0 {
      InvariantOverRuns(e, destination, n, run, i - 1);
      assert Next(e, run[i - 1], run[i]);
      InvariantStep(e, destination, run[i - 1], run[i]);
      var p: nat :| p < |run[i - 1].processes| && Step(e, run[i - 1], p, run[i]);
      FrameStep(e, run[i - 1], p, run[i]);
    }
  }

  /**
   At every moment of every run the versioned directory is as it was found or
   complete, and whenever any process has succeeded it agrees with the embedded
   set; a directory that was absent then is exactly the embedded set.
   */
  lemma AssetsAreNeverPartial(e: Embedded, destination: Option<Tree>, n: nat, run: seq<State>, i: nat)
    requires e.WellFormed() && Run(e, destination, n, run) && i < |run|
    ensures NeverPartial(e, destination, run[i])
    ensures Succeeded in run[i].processes ==>
              && run[i].destination.Some? && e.Valid(run[i].destination.value)
              && (destination.None? ==> run[i].destination == Some(e.Complete()))
  {
    InvariantOverRuns(e, destination, n, run, i);
    if Succeeded in run[i].processes {
      var p :| 0 <= p < |run[i].processes| && run[i].processes[p] == Succeeded;
      assert Knows(e, run[i], p);
    }
  }

  /** What one process has validated, no later step of any process changes. */
  lemma {:induction false} SuccessIsStable(
    e: Embedded, destination: Option<Tree>, n: nat, run: seq<State>, i: nat, j: nat)
    requires e.WellFormed() && Run(e, destination, n, run) && i <= j < |run|
    requires run[i].destination.Some? && e.Valid(run[i].destination.value)
    ensures run[j].destination == run[i].destination
    decreases j
  {
    hide Step, Knows, NeverPartial, Embedded.Prefix, Embedded.Complete, Initial;
    if i < j {
      SuccessIsStable(e, destination, n, run, i, j - 1);
      InvariantOverRuns(e, destination, n, run, j - 1);
      assert Next(e, run[j - 1], run[j]);
      var p: nat :| p < |run[j - 1].processes| && Step(e, run[j - 1], p, run[j]);
      assert Knows(e, run[j - 1], p);
      DestinationStep(e, run[j - 1], p, run[j]);
    }
  }

  // ------------------------------------------------------------ convergence

  /** Without faults no process is on its way to failing. */
  ghost predicate OnTrack(e: Embedded, s: State) {
    && (s.destination.Some? ==> e.Valid(s.destination.value))
    && forall p :: 0 <= p < |s.processes| ==>
         && s.processes[p] != Failed && s.processes[p] != Cleaning(false)
         && (s.processes[p] == RenameFailed || s.processes[p].Validating? ==> s.destination.Some?)
  }

  lemma OnTrackStep(e: Embedded, s: State, p: nat, next: State)
    requires e.WellFormed() && p < |s.processes| && Step(e, s, p, next) && Knows(e, s, p)
    requires OnTrack(e, s) && next.faults == 0
    ensures OnTrack(e, next)
  {
    DestinationStep(e, s, p, next);
    FrameStep(e, s, p, next);
    KnowsStep(e, s, p, next);
    e.CompleteIsValid();
    match s.processes[p] {
      case Validating(_, n) => if n <= |e.assets| { ValidAgrees(e, s.destination.value, n); }
      case _ =>
    }
    assert s.processes[p] != Failed;
    assert next.processes[p] != Failed && next.processes[p] != Cleaning(false);
  }

  lemma ValidAgrees(e: Embedded, tree: Tree, n: nat)
    requires e.Valid(tree) && n <= |e.assets|
    ensures Agrees(e, tree, n)
  {
  }

  /**
   Concurrent materialization converges: starting from an absent or valid
   directory, in a run without faults no process ever fails, so every process that
   finishes succeeds.
   */
  lemma {:induction false} FaultFreeRunsConverge(
    e: Embedded, destination: Option<Tree>, n: nat, run: seq<State>, i: nat)
    requires e.WellFormed() && Run(e, destination, n, run) && i < |run|
    requires destination.Some? ==> e.Valid(destination.value)
    requires run[i].faults == 0
    ensures OnTrack(e, run[i])
    decreases i
  {
    hide Step, Knows, NeverPartial;
    if i > 0 {
      assert Next(e, run[i - 1], run[i]);
      var p: nat :| p < |run[i - 1].processes| && Step(e, run[i - 1], p, run[i]);
      InvariantOverRuns(e, destination, n, run, i - 1);
      assert Knows(e, run[i - 1], p);
      DestinationStep(e, run[i - 1], p, run[i]);
      FaultFreeRunsConverge(e, destination, n, run, i - 1);
      OnTrackStep(e, run[i - 1], p, run[i]);
    }
  }

  // ------------------------------------------------------------ termination

  /** The most operations a process can still make. */
  function Remaining(e: Embedded, process: Process): nat {
    var a := |e.assets|;
    match process
    case Succeeded => 0
    case Failed => 0
    case Validating(reason, n) =>
      (if n <= a + 1 then a + 2 - n else 0) + (if reason == LostRace then a + 4 else 0)
    case Cleaning(_) => a + 3
    case RenameFailed => 2 * a + 7
    case Renaming => 2 * a + 8
    case Writing(n) => 2 * a + 9 + (if n <= a then a - n else 0)
    case Creating => 3 * a + 10
    case Begin => 3 * a + 11
  }

  function TotalRemaining(e: Embedded, processes: seq<Process>): nat {
    if processes == [] then 0
    else Remaining(e, processes[|processes| - 1]) + TotalRemaining(e, processes[..|processes| - 1])
  }

  lemma {:induction false} TotalUpdate(e: Embedded, processes: seq<Process>, p: nat, next: Process)
    requires p < |processes|
    ensures TotalRemaining(e, processes[p := next]) ==
            TotalRemaining(e, processes) - Remaining(e, processes[p]) + Remaining(e, next)
    decreases |processes|
  {
    var last := |processes| - 1;
    if p == last {
      assert processes[p := next][..last] == processes[..last];
    } else {
      TotalUpdate(e, processes[..last], p, next);
      assert processes[p := next][..last] == processes[..last][p := next];
    }
  }

  lemma {:induction false} TotalAtStart(e: Embedded, processes: seq<Process>)
    requires forall p :: 0 <= p < |processes| ==> processes[p] == Begin
    ensures TotalRemaining(e, processes) == |processes| * (3 * |e.assets| + 11)
    decreases |processes|
  {
    if processes != [] { TotalAtStart(e, processes[..|processes| - 1]); }
  }

  lemma FollowsDropsRank(e: Embedded, process: Process, next: Process)
    requires Follows(e, process, next)
    requires process.Validating? ==> process.passed <= |e.assets| + 1
    ensures Remaining(e, next) < Remaining(e, process)
  {
  }

  lemma StepDropsRank(e: Embedded, s: State, p: nat, next: State)
    requires p < |s.processes| && Step(e, s, p, next) && Knows(e, s, p)
    ensures p < |next.processes| && Remaining(e, next.processes[p]) < Remaining(e, s.processes[p])
  {
    FrameStep(e, s, p, next);
    hide Step, Remaining, Follows, Embedded.Checked, Embedded.Valid, Embedded.Prefix, Embedded.Complete;
    FollowsDropsRank(e, s.processes[p], next.processes[p]);
  }

  lemma StepIsProgress(e: Embedded, s: State, p: nat, next: State)
    requires p < |s.processes| && Step(e, s, p, next) && Knows(e, s, p)
    ensures TotalRemaining(e, next.processes) < TotalRemaining(e, s.processes)
  {
    hide Step, Knows, Remaining;
    FrameStep(e, s, p, next);
    StepDropsRank(e, s, p, next);
    TotalUpdate(e, s.processes, p, next.processes[p]);
  }

  /** Every run of `n` processes ends within `n * (3 * assets + 11)` operations. */
  lemma {:induction false} RunsAreBounded(e: Embedded, destination: Option<Tree>, n: nat, run: seq<State>, i: nat)
    requires e.WellFormed() && Run(e, destination, n, run) && i < |run|
    ensures i + TotalRemaining(e, run[i].processes) <= n * (3 * |e.assets| + 11)
    decreases i
  {
    if i == 0 {
      TotalAtStart(e, run[0].processes);
    } else {
      RunsAreBounded(e, destination, n, run, i - 1);
      InvariantOverRuns(e, destination, n, run, i - 1);
      assert Next(e, run[i - 1], run[i]);
      var p: nat :| p < |run[i - 1].processes| && Step(e, run[i - 1], p, run[i]);
      assert Knows(e, run[i - 1], p);
      StepIsProgress(e, run[i - 1], p, run[i]);
    }
  }

  /** No process is ever blocked by the others: one that has not finished can take a step without a fault. */
  lemma UnfinishedCanStep(e: Embedded, s: State, p: nat) returns (next: State)
    requires p < |s.processes| && Knows(e, s, p)
    requires s.processes[p] != Succeeded && s.processes[p] != Failed
    ensures Step(e, s, p, next) && next.faults == s.faults
  {
    match s.processes[p] {
      case Begin => next := s.To(p, if s.destination.Some? then Validating(Found, 0) else Creating);
      case Creating => next := s.(temporary := s.temporary[p := map[]]).To(p, Writing(0));
      case Writing(n) =>
        if n < |e.assets| {
          next := s.(temporary := s.temporary[p := s.temporary[p][e.assets[n].path := e.assets[n].contents]])
                   .To(p, Writing(n + 1));
        } else {
          next := s.(temporary := s.temporary[p := s.temporary[p][COMPLETE_MARKER := e.version]]).To(p, Renaming);
        }
      case Renaming =>
        if Vacant(s.destination) {
          next := s.(destination := Some(s.temporary[p]), temporary := s.temporary - {p}).To(p, Cleaning(true));
        } else {
          next := s.To(p, RenameFailed);
        }
      case RenameFailed =>
        next := s.To(p, if s.destination.Some? then Validating(LostRace, 0) else Cleaning(false));
      case Validating(reason, n) =>
        if n == |e.assets| + 1 {
          next := s.To(p, AfterValidation(reason, true));
        } else if s.destination.Some? && Agrees(e, s.destination.value, n) {
          next := s.To(p, Validating(reason, n + 1));
        } else {
          next := s.To(p, AfterValidation(reason, false));
        }
      case Cleaning(installed) =>
        next := s.(temporary := s.temporary - {p}).To(p, if installed then Validating(Final, 0) else Failed);
    }
  }

  /** No process can take a step without a fault. */
  ghost predicate AtRest(e: Embedded, s: State) {
    forall p: nat, next: State :: p < |s.processes| && Step(e, s, p, next) ==> next.faults > s.faults
  }

  /**
   Without faults every process ends by succeeding: a run that has had none, from an
   absent or valid directory, and that can go on only with a fault has every process
   succeeded, with the directory there and agreeing with the embedded set.
   */
  lemma FaultFreeRunsSucceed(e: Embedded, destination: Option<Tree>, n: nat, run: seq<State>)
    requires e.WellFormed() && Run(e, destination, n, run)
    requires destination.Some? ==> e.Valid(destination.value)
    requires run[|run| - 1].faults == 0 && AtRest(e, run[|run| - 1])
    ensures var last := run[|run| - 1];
            && |last.processes| == n && (forall p :: 0 <= p < n ==> last.processes[p] == Succeeded)
            && (n > 0 ==> last.destination.Some? && e.Valid(last.destination.value))
  {
    var i := |run| - 1;
    var last := run[i];
    InvariantOverRuns(e, destination, n, run, i);
    FaultFreeRunsConverge(e, destination, n, run, i);
    hide Step, Run, NeverPartial;
    forall p | 0 <= p < n ensures last.processes[p] == Succeeded {
      assert Knows(e, last, p);
      if last.processes[p] != Succeeded {
        var next := UnfinishedCanStep(e, last, p);
        assert false;
      }
    }
    if n > 0 { assert Knows(e, last, 0); }
  }

  // ---------------------------------------------------- steps and their methods

  /** Process `p` runs alone, without a fault. */
  ghost predicate Alone(e: Embedded, p: nat, run: seq<State>) {
    && run != [] && (forall i :: 0 <= i < |run| ==> p < |run[i].processes|)
    && forall i :: 0 <= i < |run| - 1 ==> Step(e, run[i], p, run[i + 1]) && run[i + 1].faults == run[i].faults
  }

  lemma WritingStep(e: Embedded, s: State, p: nat, n: nat, next: State)
    requires p < |s.processes| && p < |next.processes| && s.processes[p] == Writing(n) && n <= |e.assets|
    requires p in s.temporary && s.temporary[p] == e.Prefix(n)
    requires WriteStep(e, s, p, n, next) && next.faults == s.faults
    ensures p in next.temporary
    ensures n < |e.assets| ==> next.processes[p] == Writing(n + 1) && next.temporary[p] == e.Prefix(n + 1)
    ensures n == |e.assets| ==> next.processes[p] == Renaming && next.temporary[p] == e.Complete()
  {
    if n < |e.assets| { PrefixStep(e, n); }
    hide Embedded.Prefix;
  }

  lemma {:induction false} WritingAlone(e: Embedded, p: nat, run: seq<State>, i: nat)
    requires Alone(e, p, run) && i < |run|
    requires run[0].processes[p] == Writing(0) && p in run[0].temporary && run[0].temporary[p] == map[]
    requires forall j :: 0 <= j < i ==> run[j].processes[p].Writing?
    ensures p in run[i].temporary
    ensures (run[i].processes[p] == Writing(i) && i <= |e.assets| && run[i].temporary[p] == e.Prefix(i)) ||
            (run[i].processes[p] == Renaming && run[i].temporary[p] == e.Complete())
    decreases i
  {
    if i > 0 {
      WritingAlone(e, p, run, i - 1);
      assert Step(e, run[i - 1], p, run[i]);
      hide WriteStep, Embedded.Prefix, Embedded.Complete;
      WritingStep(e, run[i - 1], p, i - 1, run[i]);
    }
  }

  /** The steps of writing, taken alone, build the tree that `WriteAssetTree` returns. */
  lemma WritingStepsBuildTheTree(e: Embedded, p: nat, run: seq<State>)
    requires Alone(e, p, run)
    requires run[0].processes[p] == Writing(0) && p in run[0].temporary && run[0].temporary[p] == map[]
    requires forall j :: 0 <= j < |run| - 1 ==> run[j].processes[p].Writing?
    requires !run[|run| - 1].processes[p].Writing?
    ensures var last := run[|run| - 1];
            last.processes[p] == Renaming && p in last.temporary && last.temporary[p] == e.Complete()
  {
    WritingAlone(e, p, run, |run| - 1);
  }

  lemma ValidatingStep(e: Embedded, s: State, p: nat, reason: Reason, n: nat, next: State)
    requires p < |s.processes| && p < |next.processes| && s.processes[p] == Validating(reason, n)
    requires s.destination.Some? && n <= |e.assets| + 1
    requires n > 0 ==> e.Checked(s.destination.value, n - 1)
    requires ValidateStep(e, s, p, reason, n, next) && next.faults == s.faults
    ensures next.destination == s.destination
    ensures next.processes[p] == AfterValidation(reason, e.Valid(s.destination.value)) ||
            (next.processes[p] == Validating(reason, n + 1) && n <= |e.assets| && e.Checked(s.destination.value, n))
  {
    if n <= |e.assets| {
      CheckedStep(e, s.destination.value, n);
      if e.Valid(s.destination.value) { ValidAgrees(e, s.destination.value, n); }
    }
    hide Embedded.Prefix, AfterValidation, Agrees;
  }

  lemma {:induction false} ValidatingAlone(e: Embedded, p: nat, reason: Reason, run: seq<State>, i: nat)
    requires Alone(e, p, run) && i < |run|
    requires run[0].processes[p] == Validating(reason, 0) && run[0].destination.Some?
    requires forall j :: 0 <= j < i ==> run[j].processes[p].Validating?
    ensures run[i].destination == run[0].destination
    ensures var tree := run[0].destination.value;
            run[i].processes[p] == AfterValidation(reason, e.Valid(tree)) ||
            (run[i].processes[p] == Validating(reason, i) && i <= |e.assets| + 1 && (i > 0 ==> e.Checked(tree, i - 1)))
    decreases i
  {
    if i > 0 {
      ValidatingAlone(e, p, reason, run, i - 1);
      assert Step(e, run[i - 1], p, run[i]);
      assert run[i - 1].processes[p].Validating?;
      hide ValidateStep, Embedded.Checked, Embedded.Valid;
      ValidatingStep(e, run[i - 1], p, reason, i - 1, run[i]);
    }
  }

  /** The steps of validation, taken alone, decide what `ValidateAssets` returns. */
  lemma ValidatingStepsDecide(e: Embedded, p: nat, reason: Reason, run: seq<State>)
    requires Alone(e, p, run)
    requires run[0].processes[p] == Validating(reason, 0) && run[0].destination.Some?
    requires forall j :: 0 <= j < |run| - 1 ==> run[j].processes[p].Validating?
    requires !run[|run| - 1].processes[p].Validating?
    ensures run[|run| - 1].processes[p] == AfterValidation(reason, e.Valid(run[0].destination.value))
  {
    ValidatingAlone(e, p, reason, run, |run| - 1);
  }
}
