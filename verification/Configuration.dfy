/**
 The directories the program is configured with. Every one is made absolute before a
 checkout is synchronized, so the lexical test that tells generated checkouts from
 external ones is only ever used where it is exact.
 */
module Configuration {
  import opened Outcomes
  import opened Paths
  import Checkout

  /** The paths that are set; what is not set has a default. */
  datatype Settings = Settings(
    root: Option<Path>, integration: Option<Path>, controlPlane: Option<Path>, dataPlane: Option<Path>)
  {
    predicate Readable() { Parses(root) && Parses(integration) && Parses(controlPlane) && Parses(dataPlane) }

    function DirectoryOf(kind: Checkout.Kind): Option<Path> {
      if kind == Checkout.ControlPlane then controlPlane else dataPlane
    }
  }

  predicate Parses(path: Option<Path>) { path.Some? ==> WellFormed(path.value) }

  function DefaultName(kind: Checkout.Kind): string {
    if kind == Checkout.ControlPlane then "mcp-context-forge" else "contextforge-data-plane"
  }

  function WorkspaceRoot(working: Path, s: Settings): Path {
    if s.root.Some? then AbsolutePath(working, s.root.value) else working
  }

  function IntegrationDirectory(working: Path, s: Settings): Path {
    var root := WorkspaceRoot(working, s);
    AbsolutePath(root, if s.integration.Some? then s.integration.value else root + [Normal(".integration")])
  }

  function CheckoutDirectory(working: Path, s: Settings, kind: Checkout.Kind): Path {
    AbsolutePath(WorkspaceRoot(working, s),
                 if s.DirectoryOf(kind).Some? then s.DirectoryOf(kind).value
                 else IntegrationDirectory(working, s) + [Normal(DefaultName(kind))])
  }

  function RequestOf(working: Path, s: Settings, kind: Checkout.Kind, reference: string): Checkout.Request {
    Checkout.Request(kind, reference, CheckoutDirectory(working, s, kind))
  }

  /** The directory the program was started in. */
  predicate IsWorkingDirectory(path: Path) { WellFormed(path) && IsAbsolute(path) }

  lemma ConfiguredPathsAreAbsolute(working: Path, s: Settings, kind: Checkout.Kind)
    requires IsWorkingDirectory(working) && s.Readable()
    ensures IsWorkingDirectory(WorkspaceRoot(working, s)) && IsWorkingDirectory(IntegrationDirectory(working, s))
    ensures IsWorkingDirectory(CheckoutDirectory(working, s, kind))
  {
    if s.root.Some? { AbsolutePathIsAbsolute(working, s.root.value); }
    var root := WorkspaceRoot(working, s);
    if s.integration.Some? { AbsolutePathIsAbsolute(root, s.integration.value); }
    if s.DirectoryOf(kind).Some? { AbsolutePathIsAbsolute(root, s.DirectoryOf(kind).value); }
  }

  /** However it is configured, a checkout is generated exactly when it is below the integration directory. */
  lemma GeneratedExactlyWhenBelow(working: Path, s: Settings, kind: Checkout.Kind, reference: string)
    requires IsWorkingDirectory(working) && s.Readable()
    ensures Checkout.PlanOf(IntegrationDirectory(working, s), RequestOf(working, s, kind, reference)).generated <==>
            Below(Normalized(CheckoutDirectory(working, s, kind)), Normalized(IntegrationDirectory(working, s)))
  {
    ConfiguredPathsAreAbsolute(working, s, kind);
    hide WorkspaceRoot, IntegrationDirectory, CheckoutDirectory, Normalized, Settings.Readable;
    WithinMeansBelowExactlyWhen(CheckoutDirectory(working, s, kind), IntegrationDirectory(working, s));
  }

  /** A checkout without a directory of its own is generated: it is one name below the integration directory. */
  lemma DefaultCheckoutIsGenerated(working: Path, s: Settings, kind: Checkout.Kind, reference: string)
    requires IsWorkingDirectory(working) && s.Readable() && s.DirectoryOf(kind).None?
    ensures Normalized(CheckoutDirectory(working, s, kind)) ==
            Normalized(IntegrationDirectory(working, s)) + [Normal(DefaultName(kind))]
    ensures Checkout.PlanOf(IntegrationDirectory(working, s), RequestOf(working, s, kind, reference)).generated
  {
    ConfiguredPathsAreAbsolute(working, s, kind);
    var integration := IntegrationDirectory(working, s);
    assert CheckoutDirectory(working, s, kind) == integration + [Normal(DefaultName(kind))];
    NormalizedName(integration, DefaultName(kind));
    GeneratedExactlyWhenBelow(working, s, kind, reference);
  }

  /** An integration directory set to `.` is the workspace root, and a checkout set to that root is refused. */
  lemma DotIsTheWorkspaceRoot(working: Path, s: Settings, kind: Checkout.Kind)
    requires IsWorkingDirectory(working) && s.Readable() && s.integration == Some([CurDir])
    ensures Normalized(IntegrationDirectory(working, s)) == Normalized(WorkspaceRoot(working, s))
    ensures s.DirectoryOf(kind) == Some(WorkspaceRoot(working, s)) ==>
              Normalized(CheckoutDirectory(working, s, kind)) == Normalized(IntegrationDirectory(working, s))
  {
    ConfiguredPathsAreAbsolute(working, s, kind);
    DotMeansNothing(WorkspaceRoot(working, s));
  }

  /**
   Synchronizing a configured checkout: whatever is configured, a worktree that is not
   below the integration directory is never reset, cleaned, re-pointed or forced onto
   a branch, and the integration directory itself, however it is written, is never
   touched as a checkout.
   */
  method SynchronizeConfigured(
    manager: Checkout.CheckoutManager, working: Path, s: Settings, kind: Checkout.Kind, reference: string)
    returns (r: Result<Checkout.Status, Checkout.CheckoutError>)
    requires IsWorkingDirectory(working) && s.Readable() && manager.Untouched()
    modifies manager
    ensures !Below(Normalized(CheckoutDirectory(working, s, kind)), Normalized(IntegrationDirectory(working, s))) ==>
              Checkout.NothingRewritten(manager.trace)
    ensures Normalized(CheckoutDirectory(working, s, kind)) == Normalized(IntegrationDirectory(working, s)) ==>
              manager.trace == [] && manager.tree == old(manager.tree)
  {
    ConfiguredPathsAreAbsolute(working, s, kind);
    hide WorkspaceRoot, IntegrationDirectory, CheckoutDirectory, Normalized, Settings.Readable;
    r := manager.Ensure(IntegrationDirectory(working, s), RequestOf(working, s, kind, reference));
  }
}
