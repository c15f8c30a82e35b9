/**
 Synchronizing one source checkout. Whether a git command or a file operation
 succeeds is left open at every call. A checkout outside the integration directory
 is external: its worktree belongs to someone else.
 */
module Checkout {
  import opened Outcomes
  import Paths

  datatype Kind = ControlPlane | DataPlane

  datatype Request = Request(kind: Kind, reference: string, directory: Paths.Path) {
    predicate Disabled() { kind == DataPlane && reference == "" }
  }

  /** What is decided about a request before any command is run. */
  datatype Plan = Plan(reference: string, generated: bool)

  /** A checkout is generated when its path is within the integration directory's. */
  function PlanOf(integration: Paths.Path, request: Request): Plan {
    Plan(request.reference, Paths.IsPathWithin(request.directory, integration))
  }

  datatype Command =
    | Clone(target: Place)
    | OriginProbe
    | SetUrl
    | Fetch(pruneTags: bool)
    | BranchProbe
    | TagProbe
    | CommitProbe
    | Reset
    | Clean
    | PlainCheckout
    | ResetBranchCheckout

  datatype Ran = Ran(command: Command, ok: bool)

  datatype Status = Updated | Skipped

  datatype CheckoutError =
    | DirectoryFailed | RootItself | OutsideBoundary | CommandFailed | ForeignOrigin | UnverifiedRef
    | NoSibling | CloneFailed | StagingNotRemoved | PreserveFailed | InstallFailed | RestoreFailed | BackupNotRemoved

  datatype Place = Checkout | Staging | Backup

  datatype Tree = Tree(hasGit: bool, contents: string)

  predicate IsHexDigit(c: char) {
    '0' <= c <= '9' || 'a' <= c <= 'f' || 'A' <= c <= 'F'
  }

  predicate IsCommitHash(reference: string) {
    7 <= |reference| <= 64 && forall i :: 0 <= i < |reference| ==> IsHexDigit(reference[i])
  }

  // ------------------------------------------------------------- safe traces

  /** A successful probe that the reference names something fetched from the origin. */
  predicate Verifies(ran: Ran, plan: Plan) {
    ran.ok && (ran.command == BranchProbe || ran.command == TagProbe ||
               (ran.command == CommitProbe && IsCommitHash(plan.reference)))
  }

  /** A fetch has succeeded and the reference has been verified after it. */
  ghost predicate FetchedAndVerified(trace: seq<Ran>, plan: Plan) {
    exists f, v :: 0 <= f < v < |trace| &&
      trace[f] == Ran(Fetch(plan.generated), true) && Verifies(trace[v], plan)
  }

  ghost predicate BranchVerified(trace: seq<Ran>) {
    exists v :: 0 <= v < |trace| && trace[v] == Ran(BranchProbe, true)
  }

  /**
   Destructive commands are for generated checkouts only, no checkout comes before
   the reference is fetched and verified, and a branch is only reset to a remote
   branch that exists.
   */
  ghost predicate Safe(trace: seq<Ran>, plan: Plan) {
    forall i :: 0 <= i < |trace| ==> Allowed(trace[i].command, trace[..i], plan)
  }

  ghost predicate HasFetched(trace: seq<Ran>, plan: Plan) {
    exists f :: 0 <= f < |trace| && trace[f] == Ran(Fetch(plan.generated), true)
  }

  /** Whether a safe trace may go on with the command. */
  ghost predicate Allowed(command: Command, trace: seq<Ran>, plan: Plan) {
    match command
    case Reset => plan.generated && FetchedAndVerified(trace, plan)
    case Clean => plan.generated && FetchedAndVerified(trace, plan)
    case SetUrl => plan.generated
    case Fetch(pruneTags) => pruneTags == plan.generated
    case PlainCheckout => FetchedAndVerified(trace, plan)
    case ResetBranchCheckout => plan.generated && FetchedAndVerified(trace, plan) && BranchVerified(trace)
    case _ => true
  }

  lemma NothingIsSafe(plan: Plan)
    ensures Safe([], plan)
  {
  }

  lemma SafeAppend(trace: seq<Ran>, ran: Ran, plan: Plan)
    requires Safe(trace, plan) && Allowed(ran.command, trace, plan)
    ensures Safe(trace + [ran], plan)
  {
    var longer := trace + [ran];
    assert longer[..|trace|] == trace;
    forall i | 0 <= i < |trace| ensures longer[i] == trace[i] && longer[..i] == trace[..i] {
    }
  }

  lemma VerifiedAppend(trace: seq<Ran>, ran: Ran, plan: Plan)
    ensures FetchedAndVerified(trace, plan) ==> FetchedAndVerified(trace + [ran], plan)
    ensures BranchVerified(trace) || ran == Ran(BranchProbe, true) ==> BranchVerified(trace + [ran])
    ensures HasFetched(trace, plan) && Verifies(ran, plan) ==> FetchedAndVerified(trace + [ran], plan)
    ensures HasFetched(trace, plan) || ran == Ran(Fetch(plan.generated), true) ==>
              HasFetched(trace + [ran], plan)
  {
    var longer := trace + [ran];
    assert longer[|trace|] == ran;
    assert forall i :: 0 <= i < |trace| ==> longer[i] == trace[i];
  }

  /** The probes of a successful run, by what the reference turned out to be. */
  datatype Evidence = Branch | Tag | Commit

  function Probes(evidence: Evidence): seq<Ran> {
    match evidence
    case Branch => [Ran(BranchProbe, true)]
    case Tag => [Ran(BranchProbe, false), Ran(TagProbe, true)]
    case Commit => [Ran(BranchProbe, false), Ran(TagProbe, false), Ran(CommitProbe, true)]
  }

  function Cleanup(generated: bool): seq<Ran> {
    if generated then [Ran(Reset, true), Ran(Clean, true)] else []
  }

  /** Obtaining the checkout: cloned when absent, replaced when a generated one has another origin. */
  function Acquired(generated: bool, cloned: bool, replaced: bool): seq<Ran> {
    (if cloned then [Ran(Clone(Checkout), true)] else []) +
    [Ran(OriginProbe, !replaced)] +
    (if replaced then [Ran(Clone(Staging), true)] else []) +
    (if generated then [Ran(SetUrl, true)] else [])
  }

  function Resolved(generated: bool, evidence: Evidence): seq<Ran> {
    [Ran(Fetch(generated), true)] + Probes(evidence)
  }

  function Switched(generated: bool, evidence: Evidence): seq<Ran> {
    Cleanup(generated) +
    [Ran(if generated && evidence == Branch then ResetBranchCheckout else PlainCheckout, true)] +
    Cleanup(generated)
  }

  /** Every command of a run that ends in `Updated`. */
  function SuccessfulRun(generated: bool, cloned: bool, replaced: bool, evidence: Evidence): seq<Ran> {
    Acquired(generated, cloned, replaced) + Resolved(generated, evidence) + Switched(generated, evidence)
  }

  // ------------------------------------------------------- external worktrees

  predicate Destructive(command: Command) {
    command in {Reset, Clean, SetUrl, ResetBranchCheckout, Fetch(true)}
  }

  /** A safe trace with a destructive command is of a generated checkout. */
  lemma DestructiveMeansGenerated(trace: seq<Ran>, plan: Plan, i: nat)
    requires Safe(trace, plan) && i < |trace| && Destructive(trace[i].command)
    ensures plan.generated
  {
    assert Allowed(trace[i].command, trace[..i], plan);
  }

  /**
   With an absolute integration directory, a checkout that is not below it is never
   reset, cleaned, re-pointed or forced onto a branch.
   */
  lemma ExternalWorktreeIsNeverRewritten(trace: seq<Ran>, integration: Paths.Path, request: Request)
    requires External(integration, request) && Safe(trace, PlanOf(integration, request))
    ensures NothingRewritten(trace)
  {
    Paths.WithinMeansBelowExactlyWhen(request.directory, integration);
    forall i | 0 <= i < |trace| ensures !Destructive(trace[i].command) {
      if Destructive(trace[i].command) { DestructiveMeansGenerated(trace, PlanOf(integration, request), i); }
    }
  }

  ghost predicate NothingRewritten(trace: seq<Ran>) {
    forall i :: 0 <= i < |trace| ==> !Destructive(trace[i].command)
  }

  /** The normalized checkout path does not go down from an absolute integration directory. */
  ghost predicate External(integration: Paths.Path, request: Request) {
    && Paths.WellFormed(integration) && Paths.WellFormed(request.directory) && Paths.IsAbsolute(integration)
    && !Paths.Below(Paths.Normalized(request.directory), Paths.Normalized(integration))
  }

  /** A successful fetch and then a successful verification come before position `i`. */
  ghost predicate VerifiedBefore(trace: seq<Ran>, i: nat, plan: Plan) {
    exists f, v :: 0 <= f < v < i <= |trace| &&
      trace[f] == Ran(Fetch(plan.generated), true) && Verifies(trace[v], plan)
  }

  ghost predicate CheckoutsVerified(trace: seq<Ran>, plan: Plan) {
    forall i: nat :: i < |trace| && (trace[i].command == PlainCheckout || trace[i].command == ResetBranchCheckout) ==>
      VerifiedBefore(trace, i, plan)
  }

  /** Every checkout in a safe trace comes after a successful fetch and a successful verification. */
  lemma CheckoutsFollowVerification(trace: seq<Ran>, plan: Plan)
    requires Safe(trace, plan)
    ensures CheckoutsVerified(trace, plan)
  {
    forall i: nat | i < |trace| && (trace[i].command == PlainCheckout || trace[i].command == ResetBranchCheckout)
      ensures VerifiedBefore(trace, i, plan)
    {
      assert Allowed(trace[i].command, trace[..i], plan);
      var f, v :| 0 <= f < v < |trace[..i]| &&
        trace[..i][f] == Ran(Fetch(plan.generated), true) && Verifies(trace[..i][v], plan);
      assert trace[f] == Ran(Fetch(plan.generated), true) && Verifies(trace[v], plan);
    }
  }

  // ------------------------------------------------------------- the manager

  ghost predicate SameBut(place: Place, a: map<Place, Tree>, b: map<Place, Tree>) {
    forall p :: p != place ==> (p in a <==> p in b) && (p in a && p in b ==> a[p] == b[p])
  }

  /** The places once the fresh clone is installed and the removal of the backup has failed. */
  function AfterFailedRemoval(tree: map<Place, Tree>, staged: Tree, left: Tree): map<Place, Tree> {
    tree[Checkout := staged][Backup := left]
  }

  /**
   Then the previous tree is somewhere exactly when nothing was taken from it, or the
   clone is the same tree; a removal that has emptied the backup has lost it.
   */
  lemma FailedRemovalLosesPrevious(tree: map<Place, Tree>, previous: Tree, staged: Tree, left: Tree)
    ensures var after := AfterFailedRemoval(tree, staged, left);
            At(after, Checkout, previous) || At(after, Backup, previous) <==> left == previous || staged == previous
    ensures var was, cloned, emptied := Tree(true, "old"), Tree(true, "new"), Tree(false, "");
            forall place :: place in AfterFailedRemoval(map[Checkout := was], cloned, emptied) ==>
              AfterFailedRemoval(map[Checkout := was], cloned, emptied)[place] != was
  {
    assert "old"[0] != "new"[0];
  }

  ghost predicate At(tree: map<Place, Tree>, place: Place, content: Tree) {
    place in tree && tree[place] == content
  }

  class CheckoutManager {
    /** Resolving symbolic links, which may fail, and whether something is at a path. */
    const canonicalize: Paths.Path -> Option<Paths.Path>
    const present: Paths.Path -> bool

    var tree: map<Place, Tree>
    ghost var trace: seq<Ran>
    /** What a failed removal of a place left there. */
    ghost var leftovers: map<Place, Tree>
    /** The clone a replacement has staged. */
    ghost var staged: Option<Tree>

    /** No run has touched this checkout yet. */
    ghost predicate Untouched()
      reads this
    {
      && trace == [] && Staging !in tree && Backup !in tree && leftovers == map[] && staged.None?
      && forall p :: canonicalize(p).Some? ==>
           Paths.Canonical(canonicalize(p).value) && Paths.IsAbsolute(canonicalize(p).value)
    }

    constructor (
      canonicalize: Paths.Path -> Option<Paths.Path>, present: Paths.Path -> bool, tree: map<Place, Tree>)
      requires Staging !in tree && Backup !in tree
      requires forall p :: canonicalize(p).Some? ==>
                 Paths.Canonical(canonicalize(p).value) && Paths.IsAbsolute(canonicalize(p).value)
      ensures Untouched() && this.tree == tree && this.canonicalize == canonicalize && this.present == present
    {
      this.canonicalize, this.present, this.tree := canonicalize, present, tree;
      trace, leftovers, staged := [], map[], None;
    }

    /** What is present of the checkout path resolves to the integration directory or to something below it. */
    ghost predicate ResolvesInside(integration: Paths.Path, directory: Paths.Path) {
      var ancestor := Paths.NearestPresent(directory, present);
      && canonicalize(integration).Some? && ancestor.Some? && canonicalize(ancestor.value).Some?
      && var r, a := canonicalize(integration).value, canonicalize(ancestor.value).value;
         a == r || Paths.Below(a, r)
    }

    /** The previous tree is whole at the checkout or in the backup. */
    ghost predicate Whole(previous: Tree)
      reads this
    {
      At(tree, Checkout, previous) || At(tree, Backup, previous)
    }

    /** The removal of the backup did not fail, or had taken nothing, or the fresh clone is the same tree. */
    ghost predicate TookNothing(previous: Tree)
      reads this
    {
      Backup in leftovers ==> leftovers[Backup] == previous || staged == Some(previous)
    }

    /**
     Where a failed replacement leaves the previous tree: whole at the checkout, whole
     in the backup the error names, or, once the fresh clone is in place, what a failed
     removal has left of it in the backup.
     */
    ghost predicate PreviousKept(previous: Tree, error: CheckoutError)
      reads this
    {
      match error
      case RestoreFailed => Checkout !in tree && At(tree, Backup, previous) && Backup !in leftovers
      case BackupNotRemoved =>
        && Checkout in tree && staged == Some(tree[Checkout])
        && Backup in tree && Backup in leftovers && tree[Backup] == leftovers[Backup]
      case _ => At(tree, Checkout, previous) && Backup !in tree && Backup !in leftovers
    }

    /** Runs a command. Cloning fills its target, perhaps partly when it fails. */
    method Run(command: Command) returns (ok: bool)
      modifies this`tree, this`trace
      ensures trace == old(trace) + [Ran(command, ok)]
      ensures command in {OriginProbe, BranchProbe, TagProbe, CommitProbe} ==> tree == old(tree)
      ensures !command.Clone? ==> SameBut(Checkout, tree, old(tree))
      ensures command.Clone? ==> SameBut(command.target, tree, old(tree))
      ensures command.Clone? && ok ==> command.target in tree
    {
      ok := *;
      var after: Tree := *;
      if command.Clone? {
        var written: bool := *;
        if ok || written { tree := tree[command.target := after]; }
      } else if command !in {OriginProbe, BranchProbe, TagProbe, CommitProbe} && Checkout in tree {
        tree := tree[Checkout := after];
      }
      trace := trace + [Ran(command, ok)];
    }

    method Rename(source: Place, target: Place) returns (ok: bool)
      requires source != target
      modifies this`tree
      ensures ok ==> source in old(tree) && target !in old(tree)
                     && tree == old(tree)[target := old(tree)[source]] - {source}
      ensures !ok ==> tree == old(tree)
    {
      ok := *;
      ok := ok && source in tree && target !in tree;
      if ok { tree := tree[target := tree[source]] - {source}; }
    }

    /** Removes a place if it is there; a failed removal may leave part of it. */
    method RemoveIfPresent(place: Place) returns (ok: bool)
      modifies this`tree, this`leftovers
      ensures ok ==> tree == old(tree) - {place} && leftovers == old(leftovers)
      ensures !ok && place !in old(tree) ==> tree == old(tree) && leftovers == old(leftovers)
      ensures !ok && place in old(tree) ==>
                && place in tree && tree == old(tree)[place := tree[place]]
                && leftovers == old(leftovers)[place := tree[place]]
    {
      ok := *;
      if ok {
        tree := tree - {place};
      } else if place in tree {
        var left: Tree := *;
        tree := tree[place := left];
        leftovers := leftovers[place := left];
      }
    }

    /**
     Replaces a generated checkout whose origin differs by a fresh clone. On failure
     the previous tree is whole at the checkout or in the backup exactly when the
     removal of the backup, if it failed, had taken nothing from it.
     */
    method ReplaceGeneratedCheckout(plan: Plan) returns (r: Result<(), CheckoutError>)
      requires Staging !in tree && Backup !in tree && leftovers == map[] && staged.None? && Safe(trace, plan)
      modifies this
      ensures Safe(trace, plan)
      ensures trace == old(trace) || (exists ok :: trace == old(trace) + [Ran(Clone(Staging), ok)])
      ensures r.Ok? ==>
                && trace == old(trace) + [Ran(Clone(Staging), true)]
                && Checkout in tree && staged == Some(tree[Checkout]) && Staging !in tree && Backup !in tree
      ensures r.Err? && Checkout in old(tree) ==>
                && PreviousKept(old(tree)[Checkout], r.error)
                && (Whole(old(tree)[Checkout]) <==> TookNothing(old(tree)[Checkout]))
      ensures r.Err? && r.error !in {StagingNotRemoved, RestoreFailed, BackupNotRemoved} ==>
                Staging !in tree && SameBut(Staging, tree, old(tree))
    {
      hide Safe, FetchedAndVerified, HasFetched, BranchVerified;
      var ok: bool := *;
      if !ok { return Err(NoSibling); }
      ok := RunSafely(Clone(Staging), plan);
      if !ok {
        ok := RemoveIfPresent(Staging);
        return Err(if ok then CloneFailed else StagingNotRemoved);
      }
      staged := Some(tree[Staging]);
      r := SwapIn();
    }

    /** Puts the staged clone in place of the checkout. */
    method SwapIn() returns (r: Result<(), CheckoutError>)
      requires Staging in tree && Backup !in tree && leftovers == map[] && staged == Some(tree[Staging])
      modifies this`tree, this`leftovers
      ensures r.Ok? ==> Checkout in tree && tree[Checkout] == old(tree)[Staging] && Staging !in tree && Backup !in tree
      ensures r.Err? && Checkout in old(tree) ==> PreviousKept(old(tree)[Checkout], r.error)
      ensures r.Err? && r.error == BackupNotRemoved ==>
                && Checkout in old(tree) && Backup in leftovers
                && tree == AfterFailedRemoval(old(tree) - {Staging}, staged.value, leftovers[Backup])
      ensures r.Err? && r.error !in {StagingNotRemoved, RestoreFailed, BackupNotRemoved} ==>
                Staging !in tree && SameBut(Staging, tree, old(tree))
    {
      var ok := Rename(Checkout, Backup);
      if !ok {
        ok := RemoveIfPresent(Staging);
        return Err(if ok then PreserveFailed else StagingNotRemoved);
      }
      ok := Rename(Staging, Checkout);
      if !ok {
        ok := Rename(Backup, Checkout);
        if !ok { return Err(RestoreFailed); }
        ok := RemoveIfPresent(Staging);
        return Err(if ok then InstallFailed else StagingNotRemoved);
      }
      ok := RemoveIfPresent(Backup);
      return if ok then Ok(()) else Err(BackupNotRemoved);
    }

    /** Runs a command that the trace so far allows. */
    method RunSafely(command: Command, plan: Plan) returns (ok: bool)
      requires Safe(trace, plan) && Allowed(command, trace, plan)
      modifies this`tree, this`trace
      ensures trace == old(trace) + [Ran(command, ok)] && Safe(trace, plan)
      ensures FetchedAndVerified(old(trace), plan) ==> FetchedAndVerified(trace, plan)
      ensures HasFetched(old(trace), plan) && Verifies(Ran(command, ok), plan) ==> FetchedAndVerified(trace, plan)
      ensures HasFetched(old(trace), plan) || Ran(command, ok) == Ran(Fetch(plan.generated), true) ==>
                HasFetched(trace, plan)
      ensures BranchVerified(old(trace)) || Ran(command, ok) == Ran(BranchProbe, true) ==> BranchVerified(trace)
      ensures command in {OriginProbe, BranchProbe, TagProbe, CommitProbe} ==> tree == old(tree)
      ensures SameBut(if command.Clone? then command.target else Checkout, tree, old(tree))
      ensures !command.Clone? ==> (Staging in tree <==> Staging in old(tree))
      ensures !command.Clone? ==> (Backup in tree <==> Backup in old(tree))
      ensures command.Clone? && ok ==> command.target in tree
    {
      ok := Run(command);
      SafeAppend(old(trace), Ran(command, ok), plan);
      VerifiedAppend(old(trace), Ran(command, ok), plan);
    }

    /** Whether the reference is a tag, or a commit that is present. */
    method VerifiedNonbranchRef(plan: Plan) returns (verified: bool, ghost evidence: Evidence)
      requires Safe(trace, plan) && HasFetched(trace, plan)
      requires Staging !in tree && Backup !in tree
      modifies this`tree, this`trace
      ensures Safe(trace, plan) && old(trace) <= trace
      ensures Staging !in tree && Backup !in tree
      ensures verified ==> FetchedAndVerified(trace, plan) && evidence != Branch
      ensures verified ==>
                trace == old(trace) + Probes(evidence)[1..] && (evidence == Commit ==> IsCommitHash(plan.reference))
    {
      hide Safe, FetchedAndVerified, HasFetched, BranchVerified, SameBut, IsCommitHash;
      evidence := Tag;
      verified := RunSafely(TagProbe, plan);
      if verified { return true, Tag; }
      if !IsCommitHash(plan.reference) { return false, Tag; }
      verified := RunSafely(CommitProbe, plan);
      evidence := Commit;
    }

    /** Discards local changes of a generated checkout; does nothing to an external one. */
    method CleanGenerated(plan: Plan) returns (ok: bool)
      requires Safe(trace, plan) && FetchedAndVerified(trace, plan)
      modifies this`tree, this`trace
      ensures Safe(trace, plan) && FetchedAndVerified(trace, plan) && old(trace) <= trace
      ensures BranchVerified(old(trace)) ==> BranchVerified(trace)
      ensures ok ==> trace == old(trace) + Cleanup(plan.generated)
    {
      hide Safe, FetchedAndVerified, HasFetched, BranchVerified;
      ok := true;
      if plan.generated {
        ok := RunSafely(Reset, plan);
        if ok { ok := RunSafely(Clean, plan); }
      }
    }

    /** Clones a missing checkout and makes sure its origin is the configured repository. */
    method Acquire(plan: Plan) returns (r: Result<(bool, bool), CheckoutError>)
      requires Untouched()
      modifies this
      ensures Safe(trace, plan)
      ensures r.Ok? ==>
                && trace == Acquired(plan.generated, r.value.0, r.value.1) && (r.value.1 ==> plan.generated)
                && (r.value.0 <==> !(Checkout in old(tree) && old(tree)[Checkout].hasGit))
      ensures r.Ok? ==> Staging !in tree && Backup !in tree
      ensures r.Err? && r.error != CommandFailed && Checkout in old(tree) && old(tree)[Checkout].hasGit ==>
                && PreviousKept(old(tree)[Checkout], r.error)
                && (Whole(old(tree)[Checkout]) <==> TookNothing(old(tree)[Checkout]))
    {
      hide Safe, FetchedAndVerified, HasFetched, BranchVerified;
      assert Safe(trace, plan) by { NothingIsSafe(plan); }
      var cloned := !(Checkout in tree && tree[Checkout].hasGit);
      var ok: bool;
      if cloned {
        ok := RunSafely(Clone(Checkout), plan);
        if !ok { return Err(CommandFailed); }
      }
      var originMatches := RunSafely(OriginProbe, plan);
      if !plan.generated {
        return if originMatches then Ok((cloned, false)) else Err(ForeignOrigin);
      }
      if !originMatches {
        var replaced := ReplaceGeneratedCheckout(plan);
        if replaced.Err? { return Err(replaced.error); }
      }
      ok := RunSafely(SetUrl, plan);
      return if ok then Ok((cloned, !originMatches)) else Err(CommandFailed);
    }

    /** Fetches, and finds out what the reference names. */
    method Resolve(plan: Plan) returns (r: Result<bool, CheckoutError>, ghost evidence: Evidence)
      requires Safe(trace, plan) && Staging !in tree && Backup !in tree
      modifies this`tree, this`trace
      ensures Safe(trace, plan)
      ensures r.Err? ==> r.error in {CommandFailed, UnverifiedRef}
      ensures r.Ok? ==>
                && trace == old(trace) + Resolved(plan.generated, evidence) && FetchedAndVerified(trace, plan)
                && (r.value <==> evidence == Branch) && (r.value ==> BranchVerified(trace))
                && (evidence == Commit ==> IsCommitHash(plan.reference))
    {
      hide Safe, FetchedAndVerified, HasFetched, BranchVerified, SameBut, IsCommitHash;
      evidence := Branch;
      var ok := RunSafely(Fetch(plan.generated), plan);
      if !ok { return Err(CommandFailed), Branch; }
      var branch := RunSafely(BranchProbe, plan);
      if branch { return Ok(true), Branch; }
      var verified;
      verified, evidence := VerifiedNonbranchRef(plan);
      r := if verified then Ok(false) else Err(UnverifiedRef);
    }

    method Switch(plan: Plan, branch: bool, ghost evidence: Evidence) returns (ok: bool)
      requires Safe(trace, plan) && FetchedAndVerified(trace, plan)
      requires (branch <==> evidence == Branch) && (branch ==> BranchVerified(trace))
      modifies this`tree, this`trace
      ensures Safe(trace, plan)
      ensures ok ==> trace == old(trace) + Switched(plan.generated, evidence)
    {
      hide Safe, FetchedAndVerified, HasFetched, BranchVerified;
      ok := CleanGenerated(plan);
      if !ok { return; }
      ok := RunSafely(if branch && plan.generated then ResetBranchCheckout else PlainCheckout, plan);
      if !ok { return; }
      ok := CleanGenerated(plan);
    }

    /** The boundary of generated checkouts: resolves the nearest ancestor that is present. */
    method ValidateBoundary(integration: Paths.Path, directory: Paths.Path) returns (ok: bool)
      requires forall p :: canonicalize(p).Some? ==>
                 Paths.Canonical(canonicalize(p).value) && Paths.IsAbsolute(canonicalize(p).value)
      ensures ok <==> ResolvesInside(integration, directory)
    {
      var root := canonicalize(integration);
      if root.None? { return false; }
      var ancestor := directory;
      while !present(ancestor)
        invariant Paths.NearestPresent(directory, present) == Paths.NearestPresent(ancestor, present)
        decreases |ancestor|
      {
        var parent := Paths.Parent(ancestor);
        if parent.None? { return false; }
        ancestor := parent.value;
      }
      var resolved := canonicalize(ancestor);
      if resolved.None? { return false; }
      Paths.PrefixIsRootOrBelow(resolved.value, root.value);
      return root.value <= resolved.value;
    }

    /**
     Brings a checkout to its reference. Every checkout it issues comes after a
     successful fetch and a verification, an external worktree is never rewritten, and
     for a generated one nothing is run unless it resolves inside the integration
     directory.
     */
    method Ensure(integration: Paths.Path, request: Request) returns (r: Result<Status, CheckoutError>)
      requires Untouched()
      modifies this
      ensures Safe(trace, PlanOf(integration, request)) && CheckoutsVerified(trace, PlanOf(integration, request))
      ensures External(integration, request) ==> NothingRewritten(trace)
      ensures PlanOf(integration, request).generated && trace != [] ==> ResolvesInside(integration, request.directory)
      ensures request.Disabled() <==> r == Ok(Skipped)
      ensures request.Disabled() || Paths.Normalized(request.directory) == Paths.Normalized(integration) ==>
                trace == [] && tree == old(tree)
      ensures r == Ok(Updated) ==> RanSuccessfully(integration, request, old(tree))
      ensures r.Err? && r.error !in {CommandFailed, UnverifiedRef}
              && Checkout in old(tree) && old(tree)[Checkout].hasGit ==>
                && PreviousKept(old(tree)[Checkout], r.error)
                && (Whole(old(tree)[Checkout]) <==> TookNothing(old(tree)[Checkout]))
    {
      hide Safe, External, Paths.IsPathWithin, PreviousKept, Whole, TookNothing, RanSuccessfully, ResolvesInside;
      r := Synchronize(integration, request);
      CheckoutsFollowVerification(trace, PlanOf(integration, request));
      if External(integration, request) { ExternalWorktreeIsNeverRewritten(trace, integration, request); }
    }

    /** The trace is that of a successful run. */
    ghost predicate RanSuccessfully(integration: Paths.Path, request: Request, before: map<Place, Tree>)
      reads this
    {
      exists cloned, replaced, evidence ::
        && trace == SuccessfulRun(PlanOf(integration, request).generated, cloned, replaced, evidence)
        && (replaced ==> PlanOf(integration, request).generated)
        && (cloned <==> !(Checkout in before && before[Checkout].hasGit))
        && (evidence == Commit ==> IsCommitHash(request.reference))
    }

    /**
     Brings a checkout to its reference. In every run, successful or not, only
     allowed commands are issued; a run that ends in `Updated` has issued exactly
     the commands of a successful run. A failure that is not a failed command or an
     unverified reference leaves an existing checkout whole, at its place or in the
     backup, exactly when no removal of the backup had taken anything from it.
     */
    method Synchronize(integration: Paths.Path, request: Request) returns (r: Result<Status, CheckoutError>)
      requires Untouched()
      modifies this
      ensures Safe(trace, PlanOf(integration, request))
      ensures PlanOf(integration, request).generated && trace != [] ==> ResolvesInside(integration, request.directory)
      ensures request.Disabled() <==> r == Ok(Skipped)
      ensures request.Disabled() || Paths.Normalized(request.directory) == Paths.Normalized(integration) ==>
                trace == [] && tree == old(tree)
      ensures r == Ok(Updated) ==> RanSuccessfully(integration, request, old(tree))
      ensures r.Err? && r.error !in {CommandFailed, UnverifiedRef}
              && Checkout in old(tree) && old(tree)[Checkout].hasGit ==>
                && PreviousKept(old(tree)[Checkout], r.error)
                && (Whole(old(tree)[Checkout]) <==> TookNothing(old(tree)[Checkout]))
    {
      hide Safe, FetchedAndVerified, HasFetched, BranchVerified, Acquired, Resolved, Switched, Paths.IsPathWithin,
           ResolvesInside;
      var plan := PlanOf(integration, request);
      assert Safe(trace, plan) by { NothingIsSafe(plan); }
      if request.Disabled() { return Ok(Skipped); }
      var ok: bool := *;
      if !ok { return Err(DirectoryFailed); }
      var directory := Paths.NormalizePath(request.directory);
      var root := Paths.NormalizePath(integration);
      if directory == root { return Err(RootItself); }
      if plan.generated {
        ok := ValidateBoundary(integration, request.directory);
        if !ok { return Err(OutsideBoundary); }
      }
      var acquired := Acquire(plan);
      if acquired.Err? { return Err(acquired.error); }
      var resolved, evidence := Resolve(plan);
      if resolved.Err? { return Err(resolved.error); }
      ok := Switch(plan, resolved.value, evidence);
      if !ok { return Err(CommandFailed); }
      assert trace == SuccessfulRun(plan.generated, acquired.value.0, acquired.value.1, evidence);
      return Ok(Updated);
    }
  }

  // ------------------------------------------------------- successful runs

  lemma AllowedLater(command: Command, trace: seq<Ran>, ran: Ran, plan: Plan)
    requires Allowed(command, trace, plan)
    ensures Allowed(command, trace + [ran], plan)
  {
    VerifiedAppend(trace, ran, plan);
  }

  /** A safe trace may go on with any commands it allows, in any order. */
  lemma {:induction false} SafeExtended(trace: seq<Ran>, more: seq<Ran>, plan: Plan)
    requires Safe(trace, plan) && AllAllowed(more, trace, plan)
    ensures Safe(trace + more, plan)
    decreases |more|
  {
    hide Safe, Allowed;
    if more == [] {
      assert trace + more == trace;
    } else {
      SafeAppend(trace, more[0], plan);
      forall k | 1 <= k < |more| ensures Allowed(more[k].command, trace + [more[0]], plan) {
        AllowedLater(more[k].command, trace, more[0], plan);
      }
      SafeExtended(trace + [more[0]], more[1..], plan);
      assert trace + [more[0]] + more[1..] == trace + more;
    }
  }

  lemma FetchAndProbeVerify(before: seq<Ran>, plan: Plan, evidence: Evidence)
    requires evidence == Commit ==> IsCommitHash(plan.reference)
    ensures FetchedAndVerified(before + Resolved(plan.generated, evidence), plan)
    ensures evidence == Branch ==> BranchVerified(before + Resolved(plan.generated, evidence))
  {
    var trace := before + Resolved(plan.generated, evidence);
    assert trace[|before|] == Ran(Fetch(plan.generated), true);
    assert Verifies(trace[|trace| - 1], plan) && trace[|trace| - 1] == Probes(evidence)[|Probes(evidence)| - 1];
  }

  ghost predicate AllAllowed(more: seq<Ran>, trace: seq<Ran>, plan: Plan) {
    forall k :: 0 <= k < |more| ==> Allowed(more[k].command, trace, plan)
  }

  lemma AllAllowedAppend(a: seq<Ran>, b: seq<Ran>, trace: seq<Ran>, plan: Plan)
    requires AllAllowed(a, trace, plan) && AllAllowed(b, trace, plan)
    ensures AllAllowed(a + b, trace, plan)
  {
    hide Allowed;
  }

  lemma AcquiringIsAllowed(plan: Plan, cloned: bool, replaced: bool)
    ensures AllAllowed(Acquired(plan.generated, cloned, replaced), [], plan)
  {
    AllAllowedAppend(if cloned then [Ran(Clone(Checkout), true)] else [], [Ran(OriginProbe, !replaced)], [], plan);
  }

  lemma ResolvingIsAllowed(plan: Plan, evidence: Evidence)
    ensures AllAllowed(Resolved(plan.generated, evidence), [], plan)
  {
  }

  lemma SwitchingIsAllowed(trace: seq<Ran>, plan: Plan, evidence: Evidence)
    requires FetchedAndVerified(trace, plan) && (evidence == Branch ==> BranchVerified(trace))
    ensures AllAllowed(Switched(plan.generated, evidence), trace, plan)
  {
    hide FetchedAndVerified, BranchVerified;
  }

  lemma PreparingIsSafe(plan: Plan, cloned: bool, replaced: bool, evidence: Evidence)
    ensures Safe(Acquired(plan.generated, cloned, replaced) + Resolved(plan.generated, evidence), plan)
  {
    var acquired, resolved := Acquired(plan.generated, cloned, replaced), Resolved(plan.generated, evidence);
    NothingIsSafe(plan);
    AcquiringIsAllowed(plan, cloned, replaced);
    ResolvingIsAllowed(plan, evidence);
    hide Safe, Acquired, Resolved, Allowed, AllAllowed;
    AllAllowedAppend(acquired, resolved, [], plan);
    SafeExtended([], acquired + resolved, plan);
    assert [] + (acquired + resolved) == acquired + resolved;
  }

  /** Every successful run is safe: safety forbids none of the ways a checkout can succeed. */
  lemma SuccessfulRunIsSafe(plan: Plan, cloned: bool, replaced: bool, evidence: Evidence)
    requires evidence == Commit ==> IsCommitHash(plan.reference)
    ensures Safe(SuccessfulRun(plan.generated, cloned, replaced, evidence), plan)
  {
    hide Safe, FetchedAndVerified, BranchVerified, Acquired, Resolved, Switched, AllAllowed, IsCommitHash;
    var acquired, resolved := Acquired(plan.generated, cloned, replaced), Resolved(plan.generated, evidence);
    PreparingIsSafe(plan, cloned, replaced, evidence);
    FetchAndProbeVerify(acquired, plan, evidence);
    SwitchingIsAllowed(acquired + resolved, plan, evidence);
    SafeExtended(acquired + resolved, Switched(plan.generated, evidence), plan);
  }
}
