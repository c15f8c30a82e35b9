# Verified model of the integration tool's hard cores

This project models, in Dafny, the parts of the integration tool whose correctness is not
visible in one function body, and proves what they promise for every input, every run and
every pattern of failures.

- **Capacity search** (`Bisection`, `CapacitySearch`). The FYRE campaign ramps the load up by
  doubling, bisects below a failing load or inside a throughput plateau, and confirms a
  candidate, going back down when a confirmation fails. Measurements and the clock are
  oracles. `Search` is total under one condition, which is exact, and a confirmed verdict
  carries the whole bracket.
- **Baselines** (`FileTree`, `Findings`, `Baselines`, `BaselineTransaction`,
  `BaselineRoundTrip`, `BaselineMatrix`). Evaluating results against baselines, committing
  replacements as one directory transaction whose every file operation may fail, and the round
  trip: once blessed, the same results match, for one combination of version, era and
  direction and for a whole matrix committed at once.
- **Embedded assets** (`AssetProtocol`). Any number of processes materialize one versioned
  directory; all interleavings and all failed operations are runs of one step system.
- **Conformance fixture** (`FixtureProvisioning`). Provisioning, cleanup and reconciliation
  over an admin API on which a write may commit while its response is lost, and on which a
  create without an answer may commit at any later moment.
- **Source checkouts** (`Checkout`, `Paths`, `Configuration`). Which git commands are ever issued and after
  what, what a failed replacement leaves on disk, lexical path normalization, containment, and
  the pattern that matches one repository exactly.
- **Results and reports** (`Results`, `Markdown`, `ResultDirectory`). Outcomes, the
  three-way comparison, the counts, and rows of the report that stay rows whatever the scenario
  names, reference ids and URLs contain, by section 4.10 of the GitHub Flavored Markdown Spec.
- **Small loops with exact specifications** (`RunTime`, `Pagination`, `Sse`). The run-time
  argument, cursor pagination, and server-sent event data by section 9.2.6 of the WHATWG HTML
  Living Standard.

Operations that change state are classes and methods; what they promise is stated about pure
functions and predicates, and proved about those as lemmas. Failure of a command, a request
or a file operation is a nondeterministic choice at the call.

## What the proofs found

- Nothing validates `boundary_percent`: the configuration checks only bound `first_users`,
  `maximum_users` and the duration (`src/runtime/fyre.rs:721-732`). Where
  `boundary_percent * (low + 1) < 100`, a system whose capacity is exactly `low` makes the
  bisection re-measure `low` for ever, because `(low + high) // 2` is `low` once the two are
  neighbours. The shipped configurations (12.5 percent from 125 users) are far from it.
- A plateau bisection keeps a sub-threshold gain between its bounds exactly when the threshold
  is non-negative (or at most -100, when no plateau is ever seen). With a threshold in between,
  moving the lower bound up can lose it.
- Blessing promises that a failure leaves the old tree. That holds exactly when the removal of
  the backup, if it failed, had not yet deleted anything: the rollback at
  `src/conformance/baseline.rs:292-304` renames whatever is left of the backup to the root.
- The same holds for replacing a generated checkout: when the removal of the backup at
  `src/infrastructure/checkout.rs:321-322` fails after deleting something, the error names a
  damaged backup and the previous tree is nowhere. It is whole, at the checkout or in the
  backup, exactly when that removal did not fail, or had taken nothing, or the clone is the same
  tree.
- A cleanup of the fixture lists the servers once. A create of the server that had no answer can
  commit afterwards, so success leaves no server for certain exactly when no such create is
  undecided. The two quiet polls for gateways leave the same doubt exactly when a create of a
  gateway is undecided.
- Taken by itself, `is_path_within` takes `..`, and every absolute path, to be inside `.`; with a
  relative directory made only of `..` it takes a path that climbs further to be inside. The
  program never gets there: configuration makes every path absolute
  (`src/infrastructure/config.rs:222-307`), for absolute directories the test is exact, and an
  integration directory set to `.` is refused as a checkout like any other spelling of it.
- `markdown_cell` replaces a newline by `<br>` and then escapes that break's own angle
  brackets, so a newline comes out as `&lt;br&gt;`, not as a break. Cells stay safe.
- An event that JSON may carry as it is, one with U+2028, is cut off at that character by the
  decoder and read back by the standard.
- `str.splitlines` ends lines at eight more characters than the standard does (vertical tab, form
  feed, the separators 1C to 1E, NEL, U+2028 and U+2029), so decoding inverts encoding exactly
  for events without them and without carriage returns. On texts without them the decoder agrees
  with the standard, apart from also yielding an event the text ends in and from not dropping a byte
  order mark.

## Model

| member | source | states |
|---|---|---|
| `Bisection.StopsExactlyWhenConverging` | benchmarks/fyre/campaign.py:738-750 | The bisection loop stops for every sequence of outcomes if and only if `boundary_percent * (low + 1) >= 100`. |
| `Bisection.MeasurementsAreLogarithmic` | benchmarks/fyre/campaign.py:738-750 | Under that condition any run of the loop makes at most ceil(log2(high - low)) measurements. |
| `Bisection.CapacityAtLowRunsForEver` | benchmarks/fyre/campaign.py:738-750 | Without it, a system whose capacity is exactly `low` keeps the loop measuring for any number of steps. |
| `Bisection.Midpoint` | benchmarks/fyre/campaign.py:738-739 | While the bracket is too wide its midpoint is strictly inside, and either half needs one halving less. |
| `CapacitySearch.SearchStopsExactlyWhenStopping` | benchmarks/fyre/campaign.py:700-842 | If `boundary_percent * (first_users + 1) >= 100` or there is no load above `first_users`, no bisection of the search runs for ever; otherwise the one after a ramp that fails at its second load can. |
| `Outcomes.CeilLog2IsTheLogarithm` | benchmarks/fyre/campaign.py:738-750 | The halving bound used above is the rounded-up binary logarithm. |
| `CapacitySearch.DoublingsAreTheLogarithm` | benchmarks/fyre/campaign.py:700-722 | The ramp's doubling bound is at most k exactly when `first * 2^k` reaches the maximum. |
| `CapacitySearch.SmallestFailureAppend` | benchmarks/fyre/campaign.py:708-710 | Overwriting `failing` with each new failure keeps it the smallest load that ever failed, as failures only move down. |
| `CapacitySearch.HeaviestBelow` | benchmarks/fyre/campaign.py:733-737 | The chosen pass is a member of `passing` below `high` with no passing load between; none exactly when no pass is below. |
| `CapacitySearch.LowestRate` | benchmarks/fyre/campaign.py:862-865 | The smallest rate of the confirmations: attained, and no larger than any. |
| `CapacitySearch.LowGainIsPlateau` | benchmarks/fyre/campaign.py:711-719 | Two low gains at the end of an increasing ramp make the third and second last loads neighbouring passes with a sub-threshold gain. |
| `CapacitySearch.PlateauKeptExactlyWhen` | benchmarks/fyre/campaign.py:778-786 | Narrowing a plateau keeps a sub-threshold gain for all positive rates if and only if the threshold is non-negative or at most -100. |
| `CapacitySearch.PlateauLost` | benchmarks/fyre/campaign.py:778-786 | For every threshold strictly between -100 and 0, rates that lose the plateau. |
| `CapacitySearch.PlateauNarrowed` | benchmarks/fyre/campaign.py:778-786 | Whichever bound a measurement inside the plateau moves, the gain between the new bounds is still below the threshold. |
| `CapacitySearch.CapacitySearch.Measure` | benchmarks/fyre/campaign.py:660-686 | One measured step appends one sample and keeps the log invariant: range, smallest failure, `passing` exactly the passes of the log, all loads distinct, the failed confirmations in order. |
| `CapacitySearch.CapacitySearch.Ramp` | benchmarks/fyre/campaign.py:700-722 | At most one measurement more than doublings; strictly increasing passes, all below a failure; a plateau is two neighbouring passes with a sub-threshold gain. |
| `CapacitySearch.CapacitySearch.RefineBelow` | benchmarks/fyre/campaign.py:731-750 | Answers nothing exactly when no pass is below `high`, without measuring; otherwise a pass bracketed below the smallest failure within the width. Whatever the outcome, at most as many measurements as the starting width can be halved. |
| `CapacitySearch.CapacitySearch.Bisect` | benchmarks/fyre/campaign.py:737-750 | The loop of `refine_below`: keeps a pass at its lower and the smallest failure at its upper bound with no pass between, within that number of measurements. |
| `CapacitySearch.CapacitySearch.RefinePlateau` | benchmarks/fyre/campaign.py:752-791 | A plateau boundary of the requested width inside the one given with a sub-threshold gain, or a failure boundary; the branch without a pass below is dead. Whatever the outcome, at most the halvings of the plateau and of the range below it. |
| `CapacitySearch.CapacitySearch.ConfirmOnce` | benchmarks/fyre/campaign.py:809-824 | Exactly `repetitions` consecutive passes at the candidate, or the failing bound becomes the candidate's load. |
| `CapacitySearch.CapacitySearch.Narrow` | benchmarks/fyre/campaign.py:700-805 | The first candidate is a pass, bracketed by the failure, by the plateau, or the heaviest load; ending without one means nothing passed. |
| `CapacitySearch.CapacitySearch.Settle` | benchmarks/fyre/campaign.py:807-842 | Ends at a confirmed candidate or after the lightest pass failed; the recorded rounds are exactly the failed confirmations of the log, their candidates passed the search and get strictly lighter. |
| `CapacitySearch.CapacitySearch.Search` | benchmarks/fyre/campaign.py:689-906 | Terminates within a stated number of measurements; a confirmed verdict has exactly `repetitions` final confirmations at `users`, `failing` the smallest load that failed or none, the bracket within the width, the confirmation failures exactly those of the log at ever lighter loads above `users`, five percent headroom, and every load measured in range. |
| `FileTree.WriteChangesOneFile` | src/conformance/baseline.rs:258-272 | Writing a staged file sets the contents at its own path and changes no other file. |
| `FileTree.CopyDirectory` | src/conformance/baseline.rs:436-467 | A copy that succeeds is the source tree, which then has only files and directories; every operation may fail. |
| `Findings.Trichotomy` | src/conformance/baseline.rs:25-48 | The derived order on findings is total and irreflexive. |
| `Findings.Transitive` | src/conformance/baseline.rs:25-48 | The derived order is transitive across its four fields. |
| `Findings.SortedListingIsUnique` | src/conformance/baseline.rs:430-432 | A set of findings has one listing the strict sortedness check accepts. |
| `Findings.DifferenceSorted` | src/conformance/baseline.rs:138-139 | The difference of two ordered sets is still listed in strict order. |
| `Findings.Insert` | src/conformance/baseline.rs:339-344 | Inserting into the ordered set adds one member and keeps strict order. |
| `Baselines.BaselinePathIsInjective` | src/conformance/baseline.rs:380-393 | Equal baseline paths have equal version, era, direction and lane. |
| `Baselines.ScoredFindings` | src/conformance/baseline.rs:320-347 | The strictly sorted set of exactly the failed and warned checks; none exactly when a status is unknown. |
| `Baselines.CompareLane` | src/conformance/baseline.rs:134-162 | Succeeds exactly when statuses are known and the baseline is readable, or absent and blessing; the four lists are the attributed findings, the baseline, and both differences. |
| `Baselines.Evaluate` | src/conformance/baseline.rs:97-177 | Succeeds exactly under the stated conditions; one comparison a selected lane in lane order; updates only when blessing, each the attributed findings at the lane's path. |
| `BaselineTransaction.OverlayFiles` | src/conformance/baseline.rs:254-272 | The installed tree has every update at its path and every other file as before. |
| `BaselineTransaction.DirectoryGuard.Drop` | src/conformance/baseline.rs:469-490 | An armed guard removes its own directory and no other; a disarmed one changes nothing. |
| `BaselineTransaction.Stage` | src/conformance/baseline.rs:254-272 | Every failure leaves all but the staging directory alone; success leaves there the old tree overlaid with all updates. |
| `BaselineTransaction.Swap` | src/conformance/baseline.rs:274-287 | Old tree to the backup and staged tree to the root, or the old tree back at the root, or whole in a kept backup when the rollback rename failed. |
| `BaselineTransaction.RemoveBackup` | src/conformance/baseline.rs:288-304 | Removing the backup commits; when that fails, both renames back are tried, the layout is one of their three outcomes, and no guard is left armed on a directory that must survive. |
| `BaselineTransaction.RollbackReinstallsRemains` | src/conformance/baseline.rs:288-304 | The concrete loss: when the removal took one entry of the backup and both rollback renames work, the root lacks that entry and no place holds the old tree. |
| `BaselineTransaction.Bless` | src/conformance/baseline.rs:221-312 | All or nothing for every pattern of failures: success leaves only the overlaid tree; failure leaves the old tree at the root or in the kept backup, up to what a failed backup removal took; at every step in between nothing is lost. |
| `BaselineTransaction.OldTreeSurvivesExactlyWhen` | src/conformance/baseline.rs:288-304 | After a failure the old tree is whole at the root or in the backup if and only if a failed removal of the backup had taken nothing. |
| `BaselineRoundTrip.CommittedUpdateIsRead` | src/conformance/baseline.rs:419-434 | Reading the path of a committed update yields its document. |
| `BaselineRoundTrip.OtherBaselinesAreKept` | src/conformance/baseline.rs:239-272 | Files no update names have the contents they had. |
| `BaselineRoundTrip.BlessedIsEvaluable` | src/conformance/baseline.rs:97-177 | After the commit, evaluating without blessing finds every selected baseline. |
| `BaselineRoundTrip.BlessedResultsMatch` | src/conformance/baseline.rs:74-77 | The same results evaluated again match for every selected lane, whatever else was committed with their updates. |
| `BaselineRoundTrip.BlessAndRecheck` | src/conformance/baseline.rs:97-312 | The round trip on the methods themselves: evaluate with blessing, commit, evaluate; no drift. |
| `BaselineMatrix.MatrixHasNoRepeats` | src/runtime/conformance/mod.rs:1438-1450 | Versions and eras listed once give every combination of version, era and direction exactly once. |
| `BaselineMatrix.MatrixUpdatesNeverClash` | src/runtime/conformance/mod.rs:344-486 | The replacements of all combinations together never name one file twice. |
| `BaselineMatrix.RefusedOnlyForSize` | src/conformance/baseline.rs:254-272 | A matrix commit is never refused as a duplicate, and for its documents only when one exceeds the size limit. |
| `BaselineMatrix.EvaluateMatrix` | src/runtime/conformance/mod.rs:344-486 | Evaluates every combination against one tree, going on after failures; reports exactly those that cannot be evaluated and collects the updates of the rest in order. |
| `BaselineMatrix.BlessMatrix` | src/runtime/conformance/mod.rs:1363-1373 | Evaluate every combination, commit all updates at once only if none failed, evaluate again: after the commit every lane of every combination matches; without it nothing changed unless the disk failed twice or left remains. |
| `BaselineMatrix.BlessRun` | src/runtime/conformance/mod.rs:344-509 | The same for the versions and eras a run was asked for, each taken once, combinations without results passed over: a commit is never refused for a repeated update, and every requested combination with results matches after it. |
| `AssetProtocol.WriteAssetTree` | src/infrastructure/assets.rs:145-164 | A write that succeeds has written the complete tree with its marker. |
| `AssetProtocol.WritingStepsBuildTheTree` | src/infrastructure/assets.rs:145-164 | The protocol's writing steps, taken alone and without a fault, build that same tree. |
| `AssetProtocol.ValidateAssets` | src/infrastructure/assets.rs:166-192 | Accepts exactly the directories with the marker and every asset's contents. |
| `AssetProtocol.ValidatingStepsDecide` | src/infrastructure/assets.rs:166-192 | The protocol's validation steps, taken alone and without a fault, decide the same. |
| `AssetProtocol.InvariantStep` | src/infrastructure/assets.rs:111-143 | Every operation of every process keeps the protocol invariant. |
| `AssetProtocol.InvariantOverRuns` | src/infrastructure/assets.rs:111-192 | The invariant holds in every state of every interleaved run with any failures. |
| `AssetProtocol.AssetsAreNeverPartial` | src/infrastructure/assets.rs:111-143 | The versioned directory is always as it was found or complete; once any process has succeeded it agrees with the embedded set. |
| `AssetProtocol.SuccessIsStable` | src/infrastructure/assets.rs:111-143 | A validated directory is never changed again by any process. |
| `AssetProtocol.FaultFreeRunsConverge` | src/infrastructure/assets.rs:111-143 | Without faults, from an absent or valid directory, no process of any interleaving is failing. |
| `AssetProtocol.FaultFreeRunsSucceed` | src/infrastructure/assets.rs:111-143 | A fault-free run that can go on only with a fault has every process succeeded and the directory in agreement with the embedded set. |
| `AssetProtocol.RunsAreBounded` | src/infrastructure/assets.rs:111-192 | Any run of n processes ends within n * (3 * assets + 11) operations. |
| `AssetProtocol.UnfinishedCanStep` | src/infrastructure/assets.rs:111-143 | No process ever waits for another: an unfinished one has a fault-free step. |
| `FixtureProvisioning.AdminApi.DeleteGateway` | src/conformance/fixture.rs:443-450 | May only be called on a record the list read just before shows as owned; an error response leaves open whether it committed. |
| `FixtureProvisioning.AdminApi.CreateServer` | src/conformance/fixture.rs:321-335 | May only be called right after a complete poll, with the ids it found; without an answer the create has committed, never commits, or commits at any later moment. |
| `FixtureProvisioning.MissingIdentities` | src/conformance/fixture.rs:684-697 | Empty exactly when the tool, resource and prompt are all present; each identity reported exactly when it is absent. |
| `FixtureProvisioning.OfGateway` | src/conformance/fixture.rs:654-672 | Keeps exactly the records of the gateway. |
| `FixtureProvisioning.FewNoisyPollsLeaveAQuietPair` | src/conformance/fixture.rs:398-417 | Polls without two quiet ones in a row are at most twice the noisy ones, plus one. |
| `FixtureProvisioning.QuietPairIsCertainExactlyWhen` | src/conformance/fixture.rs:398-417 | With at most k noisy polls, two consecutive quiet ones are certain if and only if there are at least 2k + 2 attempts. |
| `FixtureProvisioning.ReservedIsZeroExactlyWhenNone` | src/conformance/fixture.rs:338-350 | Counting the reserved gateways gives zero exactly when none is reserved. |
| `FixtureProvisioning.FixtureClient.DeleteReservedGatewaysOnce` | src/conformance/fixture.rs:338-360 | Success means no reserved gateway is left of those listed and no request failed; a foreign one is refused before any delete. |
| `FixtureProvisioning.FixtureClient.DeleteReserved` | src/conformance/fixture.rs:350-359 | Goes on after a failed delete, and fails exactly when one failed. |
| `FixtureProvisioning.ReconciliationIsCertainExactlyWhen` | src/conformance/fixture.rs:398-417 | A successful reconciliation is certain to leave nothing reserved if and only if no create of a gateway is undecided by then. |
| `FixtureProvisioning.FixtureClient.ReconcileReservedGateways` | src/conformance/fixture.rs:398-417 | Success means the last two polls were both quiet, and a reserved gateway is there exactly when one has been created late since the last poll; success is certain without a failed request from 2k + 2 attempts on, where k counts the reserved gateways there are and the creates still undecided. |
| `FixtureProvisioning.CleanupIsCertainExactlyWhen` | src/conformance/fixture.rs:362-381 | A server cleanup that is not refused is certain to leave no server if and only if no create of the server is still undecided. |
| `FixtureProvisioning.LateCreateSurvives` | src/conformance/fixture.rs:362-381 | The failing run, from any state the cleanup accepts: it succeeds, then an undecided create commits, and the server is there. |
| `FixtureProvisioning.FixtureClient.DeleteOwnedServer` | src/conformance/fixture.rs:362-381 | Success is exactly such a cleanup, so what is left can only have committed after its last request; the server is deleted only when the list read just before has the deterministic id once, and owned. |
| `FixtureProvisioning.FixtureClient.DeleteOwnedGateway` | src/conformance/fixture.rs:383-396 | Success means no gateway has the id; a delete follows only when the list has it exactly once. |
| `FixtureProvisioning.FixtureClient.Cleanup` | src/conformance/fixture.rs:292-313 | The server first, and the gateway is attempted whatever became of the server. Success means the gateway is gone, and the server is there exactly when a create of it has committed since the last server request; with none undecided it is gone. |
| `FixtureProvisioning.FixtureClient.PollCatalogs` | src/conformance/fixture.rs:419-441 | Success is a complete catalog of the gateway from the last three reads; giving up means every one of `max_attempts` polls read an incomplete one. |
| `FixtureProvisioning.FixtureClient.FinishProvision` | src/conformance/fixture.rs:315-336 | Whatever the outcome, the server is requested at most once, last, after a refresh and right after a complete poll, associated with exactly the ids that poll found. |
| `FixtureProvisioning.FixtureClient.Provision` | src/conformance/fixture.rs:218-283 | A failure after the create followed by a successful cleanup leaves no created gateway, and leaves the server exactly when a create of it committed after the cleanup's last server request, which takes an unanswered create; a failed create followed by a successful reconciliation leaves a reserved gateway exactly when one committed after the last poll; every delete in every run was of an owned record. |
| `Checkout.SafeAppend` | src/infrastructure/checkout.rs:189-263 | A trace stays safe when it goes on with a command it allows. |
| `Checkout.ExternalWorktreeIsNeverRewritten` | src/infrastructure/checkout.rs:86-168 | With an absolute integration directory, no safe trace for a checkout whose normalized path is not below it has a reset, clean, set-url, forced branch checkout or tag-pruning fetch. |
| `Configuration.ConfiguredPathsAreAbsolute` | src/infrastructure/config.rs:222-307 | Whatever is set, the workspace root, the integration directory and both checkout directories are absolute. |
| `Configuration.GeneratedExactlyWhenBelow` | src/infrastructure/checkout.rs:86-88 | So for every configuration a checkout is generated if and only if its normalized path is below the integration directory. |
| `Configuration.DefaultCheckoutIsGenerated` | src/infrastructure/config.rs:286-305 | A checkout without a directory of its own is one name below the integration directory, and generated. |
| `Configuration.DotIsTheWorkspaceRoot` | src/infrastructure/config.rs:264-271 | An integration directory set to `.` is the workspace root, and a checkout set to that root normalizes alike. |
| `Configuration.SynchronizeConfigured` | src/runtime/stack/sources.rs:35-58 | For every configuration, no worktree outside the integration directory is ever rewritten, and the integration directory itself, however written, is never touched as a checkout. |
| `Paths.PrefixIsRootOrBelow` | src/infrastructure/checkout.rs:516 | Between resolved paths, starting with the integration directory is being it or going down from it by names. |
| `Checkout.CheckoutManager.ValidateBoundary` | src/infrastructure/checkout.rs:498-522 | Accepts exactly when the nearest ancestor that is present resolves to the integration directory or to something below it. |
| `Checkout.SuccessfulRunIsSafe` | src/infrastructure/checkout.rs:189-263 | Every successful run is safe, so safety forbids none of the ways a checkout can succeed. |
| `Checkout.CheckoutsFollowVerification` | src/infrastructure/checkout.rs:243-260 | In a safe trace every checkout comes after a successful fetch and then a verified branch, tag or commit. |
| `Checkout.CheckoutManager.VerifiedNonbranchRef` | src/infrastructure/checkout.rs:265-276 | Verified means the tag probe succeeded, or it failed and the commit probe of a commit hash succeeded. |
| `Checkout.CheckoutManager.SwapIn` | src/infrastructure/checkout.rs:296-323 | The staged clone is installed, or the previous tree is whole at the checkout or in the backup the error names, or the clone is installed and the backup holds what its failed removal left. |
| `Checkout.FailedRemovalLosesPrevious` | src/infrastructure/checkout.rs:321-322 | After a failed removal of the backup the previous tree is somewhere if and only if nothing was taken from it or the clone is the same; a concrete emptied backup has lost it. |
| `Checkout.CheckoutManager.ReplaceGeneratedCheckout` | src/infrastructure/checkout.rs:278-324 | After a failed replacement the previous tree is whole at the checkout or in the backup if and only if the removal of the backup did not fail, or had taken nothing, or the clone is the same tree; the staging clone is cleaned unless the error says otherwise. |
| `Checkout.CheckoutManager.Ensure` | src/infrastructure/checkout.rs:189-263 | In every run, checkouts come after a fetch and a verification, an external worktree is never rewritten, and nothing is run for a generated checkout that resolves outside; success issued exactly the commands of a successful run; after a failure other than a failed command or an unverified reference an existing checkout is whole under the same condition. |
| `Paths.NormalizePath` | src/infrastructure/checkout.rs:476-496 | The loop computes the normalization the lemmas below are about. |
| `Paths.NormalizationIsIdempotent` | src/infrastructure/checkout.rs:476-496 | The result has no `.`, `..` only as a leading run, none in an absolute path, and normalizing it again changes nothing. |
| `Paths.NormalizationDecidesMeaning` | src/infrastructure/checkout.rs:428-430 | Two paths normalize alike if and only if dropping `.`, cancelling `name/..` and `/..`, in either direction, connects them. |
| `Paths.WithinMeansBelowExactlyWhen` | src/infrastructure/checkout.rs:422-426 | For an absolute directory containment is going down by one or more names; otherwise it is exactly when the next component is a name. |
| `Paths.BelowIsWithin` | src/infrastructure/checkout.rs:422-426 | Going down from a directory is always containment. |
| `Paths.CurrentDirectoryContainsTooMuch` | src/infrastructure/checkout.rs:422-426 | The concrete paths that `.` wrongly contains. |
| `Paths.ExactGitRegex` | src/infrastructure/checkout.rs:405-420 | The pattern is the anchored escaped value. |
| `Paths.PatternMatchesExactly` | src/infrastructure/checkout.rs:405-420 | The escaped value, read as a regular expression, matches a text if and only if the text is the value. |
| `RunTime.ParseRunTime` | src/cli.rs:38-77 | Accepts exactly the texts that print one to three amounts in 1..2^64-1 with units in order, and returns them unchanged. |
| `RunTime.ReadSegment` | src/cli.rs:47-73 | Reading at a byte position is reading the first segment of the rest. |
| `RunTime.SegmentsPrintBack` | src/cli.rs:38-77 | What is read is a valid duration and prints back as the text. |
| `RunTime.PrintReadsBack` | src/cli.rs:38-77 | Every valid duration is read back from its text, so no text has two decompositions. |
| `RunTime.AcceptedExactlyWhenRead` | src/cli.rs:38-77 | A text decomposes into one to three segments exactly when the greedy reader succeeds on it. |
| `ResultDirectory.ScenarioReadsBack` | src/conformance/results.rs:734-756 | The directory made from a valid scenario name and timestamp is read back as that name. |
| `ResultDirectory.AcceptedSplitsOneWay` | src/conformance/results.rs:734-803 | Every accepted directory name is made from exactly one valid name and timestamp. |
| `Results.ScenarioOutcome` | src/conformance/results.rs:456-495 | The one-pass outcome is the order of precedence over all checks of a scenario. |
| `Results.Classify` | src/conformance/results.rs:898-938 | Fixture failure exactly when some side is one; ambiguous exactly when otherwise some side is ambiguous or missing; any other classification blames exactly the non-compliant sides. |
| `Results.CompareResultSets` | src/conformance/results.rs:965-1019 | Exactly one row for each scenario of the union, strictly sorted by name. |
| `Results.RowSides` | src/conformance/results.rs:973-1019 | A side is missing exactly where its set lacks the scenario and non-compliant exactly when checks failed; no side and no row is a fixture failure. |
| `Results.ValidatedSetsAreComplete` | src/conformance/results.rs:588-612 | Three sets accepted for one catalog give exactly its scenarios, with no side missing. |
| `Results.CountEach` | src/conformance/results.rs:1089-1092 | The entry map holds the multiplicity of every value. |
| `Results.CountTarget` | src/conformance/results.rs:1115-1150 | A printed target line has the multiplicity of each outcome and the total of failed checks, and its six counts add up to the rows. |
| `Results.CountClassifications` | src/conformance/results.rs:1153-1161 | The printed classification counts, in their order, add up to the rows. |
| `Results.MakeReport` | src/conformance/results.rs:965-1161 | From three result sets: in each target line the counts add up to the number of different scenarios with no fixture failure among them, and so does the classification table. |
| `Results.RenderScenarioRows` | src/conformance/results.rs:1164-1184 | Every scenario row is one line that splits into exactly its six cells, and every pipe inside a cell follows an odd run of backslashes. |
| `Results.RowIsTheFormat` | src/conformance/results.rs:1175-1183 | The report's format string is the row the splitting lemma is about. |
| `Markdown.CellEscapesEach` | src/conformance/results.rs:1211-1219 | The six chained replacements are one substitution of each character. |
| `Markdown.CellIsClosed` | src/conformance/results.rs:1211-1219 | A cell has no line end, escapes each of its pipes and leaves nothing escaped behind it. |
| `Markdown.EscapedMeansOddRun` | src/conformance/results.rs:1211-1219 | A position is escaped exactly when an odd run of backslashes precedes it. |
| `Markdown.ReferencesAreCellSafe` | src/conformance/results.rs:1195-1209 | Rendered references are safe in a cell for arbitrary ids and URLs. |
| `Markdown.RowHasItsCells` | src/conformance/results.rs:1175-1183 | Splitting a row of closed cells at unescaped pipes gives back exactly those cells. |
| `Pagination.List` | src/helpers/config.rs:308-330 | Follows the page chain, asks for no cursor twice, makes at most one request more than there are cursors, and fails exactly as the last page decides. |
| `Pagination.ListsExactlyTheChain` | src/helpers/config.rs:308-330 | Against a fixture without memory it succeeds exactly when the chain ends, with the items of the one chain there is, in order. |
| `Pagination.RepeatGoesOn` | src/helpers/config.rs:322-326 | A walk that repeats a cursor never ends, so refusing it loses no listing. |
| `Sse.SseDataEvents` | scripts/locustfile_mcp.py:119-135 | The generator yields the events of the decoding function the lemmas below are about. |
| `Sse.ParseEventStream` | scripts/locustfile_mcp.py:141-148 | The message is the last event that parses; none exactly when none does. |
| `Sse.AgreesWithTheStandard` | scripts/locustfile_mcp.py:119-135 | On texts with the standard's line ends and no byte order mark, the standard's events and then the one the text ends in. |
| `Sse.LinesAgreeExactlyWhen` | scripts/locustfile_mcp.py:119-135 | Python and the standard see the same lines if and only if no character of the text ends a line in Python alone. |
| `Sse.AgreesOnEncodingsExactlyWhen` | scripts/locustfile_mcp.py:119-135 | The standard reads back every event list without carriage returns; on its encoding the decoder agrees with the standard if and only if no event holds a character that ends a line in Python alone. |
| `Sse.SeparatorCutsTheEvent` | scripts/locustfile_mcp.py:119-135 | An event with such a character is cut off there when what follows is no data field. |
| `Sse.LineSeparatorIsLost` | scripts/locustfile_mcp.py:119-135 | A concrete event with U+2028, which the standard reads back and the decoder cuts. |
| `Sse.ByteOrderMarkHidesTheFirstField` | scripts/locustfile_mcp.py:119-135 | Behind a byte order mark the decoder misses the event that the standard yields. |
| `Sse.DecodersAgree` | scripts/locustfile_mcp.py:119-135 | Joining data lines is buffering them as the standard does. |
| `Sse.RoundTripsExactlyWhenClean` | scripts/locustfile_mcp.py:119-135 | Decoding inverts the `data:` encoding of an event list if and only if no event holds a character other than the line feed that Python takes for a line end. |

## Left out

- Floating point: rates, percentages and the plateau gain are exact reals; the width test is cross-multiplied, without rounding.
- CapacitySearch.CapacitySearch.Search: the report's statistics of a confirmed run (mean, maximum and variation of the rate, latencies, replica imbalance, `width_percent`) are not computed; a zero rate under a division and an empty minimum are raised exits.
- CapacitySearch.CapacitySearch.Measure: smoke runs, telemetry and how saturation of a helper is detected are one oracle outcome.
- FileTree.CopyDirectory: entries are copied in any order, not by name; file names are text and permissions are not modelled.
- BaselineTransaction.Bless: symbolic links, other processes writing to the tree and crashes between operations; staging and backup names are fresh, as their random identifiers make them.
- Baselines.Evaluate: read errors while evaluating, and which of several applicable errors is reported first. YAML is a document datatype with an abstract size, so that a written document is read back is an assumption.
- BaselineTransaction.OldTreeSurvivesExactlyWhen: assumes that the new tree differs from the old one, since otherwise installing it also keeps the old contents.
- AssetProtocol.ValidateAssets: paths are flat names, read-only permissions and the creation of intermediate directories are not modelled; private directory names are distinct, as their random identifiers make them. The lighter check that all files exist is left out.
- FixtureProvisioning.FixtureClient.Provision: deletes take effect when they are requested or never, not later. Authentication, URLs, timeouts, status codes and error texts are one failed response; waiting between polls is left out.
- Checkout.CheckoutManager.Ensure: what symbolic links resolve to and what is present are oracles that do not change during the check, and the same check of the two sibling names is an open outcome; a command may change the checkout in any way; command arguments, and sibling names, which are fresh, are left out.
- Configuration.ConfiguredPathsAreAbsolute: environment and dotenv parsing; an empty value is one that is not set.
- Paths.NormalizePath: Windows prefixes.
- Paths.PatternMatchesExactly: only the fragment of regular expressions with ordinary and escaped characters is interpreted; the escaped pattern is always inside it.
- Results.CompareResultSets: sorting references by their serialized form and dropping repeats is a function parameter.
- Results.RenderScenarioRows: the header and fixed text of the report, and the final sort of the rows, which the comparison has already sorted.
- Reading result directories from disk, JSON parsing and size limits of check files.
- Sse.ParseEventStream: parsing JSON is a parameter; an event that is the JSON `null` is a parsed message here. The plain JSON branch and the content type are left out.
- Pagination.List: the RPC session and request identifiers are one response for each request.
- SSH, Ansible, Docker and Compose execution, charts, the proxy, token handling and redaction, command-line definitions and configuration catalogs.
