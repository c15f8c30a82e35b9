/**
 The capacity search of the FYRE benchmark: a doubling ramp, a bisection below a
 failing load or inside a throughput plateau, and a confirmation loop that sends
 the search back down. The outcome of every measurement and every look at the
 clock comes from an oracle, so a contract here speaks of every possible run.
 Rates are exact reals.
 */
module CapacitySearch {
  import opened Outcomes
  import opened Bisection

  type Rate = r: real | r >= 0.0 witness 0.0

  /** A measurement passes, sees an error, or stops the run for a bigger helper. */
  datatype Measurement = Passed(rps: Rate) | Failed | Saturated

  /** A load that passed. */
  datatype Load = Load(users: nat, rps: Rate)

  datatype Phase = Searching | Confirming

  datatype Sample = Sample(phase: Phase, users: nat, outcome: Measurement)

  /** The part of the workload configuration the search reads. */
  datatype Workload = Workload(
    firstUsers: nat, maximumUsers: nat, repetitions: nat, plateauPercent: real, boundaryPercent: real)

  /** What the Python code raises: an exit for a saturated helper, or an arithmetic error. */
  datatype Exit = HelperSaturated | ZeroDivision | EmptyMinimum

  datatype Refinement = RefineRaised | NothingBelow | Refined(load: Load)

  /** Where the search bracketed the answer: between two passing loads or below a failure. */
  datatype Boundary = Plateau(below: Load, at: Load) | Failure(below: Load, atOrAbove: nat)

  datatype RampEnd = RampRaised(exit: Exit) | RampDone(plateau: Option<(Load, Load)>)

  datatype PlateauEnd = PlateauRaised(exit: Exit) | PlateauDone(candidate: Load, boundary: Boundary)

  datatype Round = RoundRaised | Agreed(passes: seq<Load>) | BrokeOff(passes: seq<Load>)

  datatype Verdict =
    | Raised(exit: Exit)
    | NoLoadPassed(lightestFailure: Option<nat>)
    | FailedConfirmation(candidate: Load, broken: Broken)
    | Inconclusive
    | Confirmed(users: nat, search: seq<Load>, failing: Option<nat>, confirmations: seq<Load>,
                confirmationFailures: Broken, boundary: Option<Boundary>,
                rpsMin: Rate, lowerBound: bool)

  /** How the confirmation loop ends: in a verdict, or at a candidate that is confirmed. */
  datatype Settlement =
    | Unsettled(verdict: Verdict)
    | Settled(candidate: Load, confirmations: seq<Load>, broken: Broken)

  /** How a search goes into confirmation, unless it has ended. */
  datatype Start = Ended(verdict: Verdict) | From(candidate: Load, boundary: Option<Boundary>)

  // ---------------------------------------------------------------- the log

  /** `failing` is the smallest load that failed in the log, if any did. */
  ghost predicate SmallestFailure(log: seq<Sample>, failing: Option<nat>) {
    match failing
    case None => forall i :: 0 <= i < |log| ==> log[i].outcome != Failed
    case Some(f) =>
      && (exists i :: 0 <= i < |log| && log[i].outcome == Failed && log[i].users == f)
      && (forall i :: 0 <= i < |log| && log[i].outcome == Failed ==> f <= log[i].users)
  }

  /** The last measurement is a confirmation at `users` that failed. */
  ghost predicate EndsBroken(log: seq<Sample>, users: nat) {
    log != [] && log[|log| - 1] == Sample(Confirming, users, Failed)
  }

  ghost predicate EndsSaturated(log: seq<Sample>) {
    log != [] && log[|log| - 1].outcome == Saturated
  }

  ghost predicate InRange(log: seq<Sample>, w: Workload) {
    forall i :: 0 <= i < |log| ==> w.firstUsers <= log[i].users <= w.maximumUsers
  }

  /** The loads that passed before confirmation, in the order they were measured. */
  ghost function SearchPasses(log: seq<Sample>): seq<Load> {
    if log == [] then []
    else
      var s, before := log[|log| - 1], SearchPasses(log[..|log| - 1]);
      if s.phase == Searching && s.outcome.Passed? then before + [Load(s.users, s.outcome.rps)] else before
  }

  lemma SearchPassesAppend(log: seq<Sample>, s: Sample)
    ensures SearchPasses(log + [s]) ==
            if s.phase == Searching && s.outcome.Passed? then SearchPasses(log) + [Load(s.users, s.outcome.rps)]
            else SearchPasses(log)
  {
    assert (log + [s])[..|log|] == log;
  }

  lemma InRangeAppend(log: seq<Sample>, s: Sample, w: Workload)
    requires InRange(log, w) && w.firstUsers <= s.users <= w.maximumUsers
    ensures InRange(log + [s], w)
  {
  }

  /** Every load is in range, and none is there twice. */
  ghost predicate ApartInRange(loads: seq<Load>, w: Workload) {
    && (forall p :: p in loads ==> w.firstUsers <= p.users <= w.maximumUsers)
    && (forall i, j :: 0 <= i < j < |loads| ==> loads[i].users != loads[j].users)
  }

  lemma ApartAppend(loads: seq<Load>, next: Load, w: Workload)
    requires ApartInRange(loads, w) && w.firstUsers <= next.users <= w.maximumUsers
    requires forall p :: p in loads ==> p.users != next.users
    ensures ApartInRange(loads + [next], w)
  {
  }

  lemma SmallestFailureAppend(log: seq<Sample>, s: Sample, failing: Option<nat>)
    requires SmallestFailure(log, failing)
    ensures s.outcome != Failed ==> SmallestFailure(log + [s], failing)
    ensures s.outcome == Failed && (failing.Some? ==> s.users <= failing.value) ==>
              SmallestFailure(log + [s], Some(s.users))
  {
    var next := log + [s];
    assert forall i :: 0 <= i < |log| ==> next[i] == log[i];
    assert next[|log|] == s;
    if failing.Some? {
      var i :| 0 <= i < |log| && log[i].outcome == Failed && log[i].users == failing.value;
      assert next[i].users == failing.value;
    }
  }

  // ------------------------------------------------------------- the ranking

  /** The heaviest passing load strictly below `high`; the first one on a tie. */
  function HeaviestBelow(passing: seq<Load>, high: nat): (r: Option<Load>)
    ensures r.None? <==> forall p :: p in passing ==> p.users >= high
    ensures r.Some? ==> r.value in passing && r.value.users < high
    ensures r.Some? ==> forall p :: p in passing ==> p.users <= r.value.users || p.users >= high
  {
    if passing == [] then None
    else
      var last := passing[|passing| - 1];
      var rest := HeaviestBelow(passing[..|passing| - 1], high);
      assert passing == passing[..|passing| - 1] + [last];
      if last.users < high && (rest.None? || rest.value.users < last.users) then Some(last) else rest
  }

  function LowestRate(loads: seq<Load>): (r: Rate)
    requires loads != []
    ensures exists p :: p in loads && p.rps == r
    ensures forall p :: p in loads ==> r <= p.rps
  {
    var last := loads[|loads| - 1];
    assert last in loads;
    assert loads == loads[..|loads| - 1] + [last];
    if |loads| == 1 then last.rps
    else
      var rest := LowestRate(loads[..|loads| - 1]);
      if last.rps < rest then last.rps else rest
  }

  /** The ramp's loads, each heavier than the one before. */
  ghost predicate Increasing(loads: seq<Load>) {
    forall i, j :: 0 <= i < j < |loads| ==> loads[i].users < loads[j].users
  }

  lemma EmptyIsIncreasing()
    ensures Increasing([])
  {
  }

  lemma IncreasingAppend(loads: seq<Load>, next: Load)
    requires Increasing(loads) && forall p :: p in loads ==> p.users < next.users
    ensures Increasing(loads + [next])
  {
  }

  // ------------------------------------------------------------- the plateau

  /** No passing load is strictly between `low` and `high`. */
  ghost predicate Gap(passing: seq<Load>, low: nat, high: nat) {
    forall p :: p in passing ==> p.users <= low || p.users >= high
  }

  lemma GapIsNew(passing: seq<Load>, low: nat, users: nat, high: nat)
    requires Gap(passing, low, high) && low < users < high
    ensures forall p :: p in passing ==> p.users != users
  {
  }

  lemma GapCut(passing: seq<Load>, low: nat, high: nat, cut: nat)
    requires Gap(passing, low, high) && cut <= high
    ensures Gap(passing, low, cut)
  {
  }

  /** A pass inside a gap leaves a gap on either side. */
  lemma GapSplits(passing: seq<Load>, low: nat, high: nat, load: Load)
    requires Gap(passing, low, high) && low < load.users < high
    ensures Gap(passing + [load], low, load.users) && Gap(passing + [load], load.users, high)
    ensures load in passing + [load] && forall p :: p in passing ==> p in passing + [load]
  {
  }

  /** The percentage by which `rps` exceeds `base`. */
  function Gain(rps: Rate, base: Rate): real
    requires base != 0.0
  {
    100.0 * (rps / base - 1.0)
  }

  /** The improvements are the gains of every passing load over the one before it. */
  ghost predicate GainsBetween(passing: seq<Load>, improvements: seq<real>) {
    && |passing| == |improvements| + 1
    && forall i {:trigger improvements[i]} :: 0 <= i < |improvements| ==>
         passing[i].rps > 0.0 && improvements[i] == Gain(passing[i + 1].rps, passing[i].rps)
  }

  lemma FirstPassHasNoGain(first: Load)
    ensures GainsBetween([first], [])
  {
  }

  lemma GainsBetweenAppend(passing: seq<Load>, improvements: seq<real>, next: Load)
    requires GainsBetween(passing, improvements) && passing[|passing| - 1].rps > 0.0
    ensures GainsBetween(passing + [next], improvements + [Gain(next.rps, passing[|passing| - 1].rps)])
  {
    var loads, gains := passing + [next], improvements + [Gain(next.rps, passing[|passing| - 1].rps)];
    forall i | 0 <= i < |gains| ensures loads[i].rps > 0.0 && gains[i] == Gain(loads[i + 1].rps, loads[i].rps) {
      assert i < |improvements| ==> gains[i] == improvements[i];
    }
  }

  /** `high` gains less than `percent` over `low`. */
  ghost predicate SubThreshold(low: Rate, high: Rate, percent: real) {
    100.0 * high < (100.0 + percent) * low
  }

  lemma GainIsSubThreshold(low: Rate, high: Rate, percent: real)
    requires low > 0.0
    ensures Gain(high, low) < percent <==> SubThreshold(low, high, percent)
  {
    var q := high / low;
    assert q * low == high;
    var excess := 100.0 * q - 100.0 - percent;
    assert excess * low == 100.0 * (q * low) - (100.0 + percent) * low;
    if excess < 0.0 {
      assert excess * low < 0.0;
    } else {
      assert excess * low >= 0.0;
    }
  }

  /** Two neighbouring passing loads between which throughput stops growing. */
  ghost predicate PlateauSeen(below: Load, at: Load, passing: seq<Load>, percent: real) {
    && below in passing && at in passing && below.rps > 0.0
    && below.users < at.users && SubThreshold(below.rps, at.rps, percent)
    && forall p :: p in passing ==> p.users <= below.users || p.users >= at.users
  }

  lemma LowGainIsPlateau(passing: seq<Load>, improvements: seq<real>, percent: real)
    requires Increasing(passing) && GainsBetween(passing, improvements)
    requires |improvements| >= 2 && improvements[|improvements| - 2] < percent
    ensures |passing| >= 3
    ensures PlateauSeen(passing[|passing| - 3], passing[|passing| - 2], passing, percent)
  {
    var k := |improvements| - 2;
    assert improvements[k] == Gain(passing[k + 1].rps, passing[k].rps);
    GainIsSubThreshold(passing[k].rps, passing[k + 1].rps, percent);
  }

  /** The bracket a plateau bisection keeps after measuring `mid` inside it. */
  ghost function PlateauStep(low: Rate, mid: Rate, high: Rate, percent: real): (Rate, Rate) {
    if SubThreshold(low, mid, percent) then (low, mid) else (mid, high)
  }

  lemma StepKeepsPlateau(low: Rate, mid: Rate, high: Rate, percent: real)
    requires percent >= 0.0 && SubThreshold(low, high, percent)
    ensures var (l, h) := PlateauStep(low, mid, high, percent); SubThreshold(l, h, percent)
  {
    if !SubThreshold(low, mid, percent) {
      assert percent * low >= 0.0 && percent * mid >= 0.0;
      assert mid >= low;
      assert percent * (mid - low) >= 0.0;
      assert (100.0 + percent) * (mid - low) == 100.0 * (mid - low) + percent * (mid - low);
    }
  }

  /**
   Every step of a plateau bisection keeps a sub-threshold gain, for positive
   rates, exactly when the configured threshold is not negative (or is so
   negative that no plateau is ever seen).
   */
  lemma PlateauKeptExactlyWhen(percent: real)
    ensures (forall low: Rate, mid: Rate, high: Rate {:trigger PlateauStep(low, mid, high, percent)} ::
               low > 0.0 && mid > 0.0 && high > 0.0 && SubThreshold(low, high, percent) ==>
                 var (l, h) := PlateauStep(low, mid, high, percent); SubThreshold(l, h, percent))
            <==> percent >= 0.0 || percent <= -100.0
  {
    if percent >= 0.0 {
      forall low: Rate, mid: Rate, high: Rate | SubThreshold(low, high, percent)
        ensures var (l, h) := PlateauStep(low, mid, high, percent); SubThreshold(l, h, percent)
      {
        StepKeepsPlateau(low, mid, high, percent);
      }
    } else if percent <= -100.0 {
      forall low: Rate, high: Rate | low > 0.0 ensures !SubThreshold(low, high, percent) {
        assert (100.0 + percent) * low <= 0.0;
      }
    } else {
      var low, mid, high := PlateauLost(percent);
      assert PlateauStep(low, mid, high, percent) == (mid, high);
    }
  }

  /** With a negative threshold the lower bound may move up to a rate that is lower. */
  lemma PlateauLost(percent: real) returns (low: Rate, mid: Rate, high: Rate)
    requires -100.0 < percent < 0.0
    ensures && low > 0.0 && mid > 0.0 && high > 0.0
            && SubThreshold(low, high, percent) && !SubThreshold(low, mid, percent)
            && !SubThreshold(mid, high, percent)
  {
    var c: Rate := 1.0 + percent / 100.0;
    assert 100.0 + percent == 100.0 * c;
    assert 0.0 < c < 1.0;
    var square := c * c;
    assert 0.0 < square < c;
    assert (100.0 + percent) * c == 100.0 * square;
    low, mid, high := 1.0, c, square;
  }

  /** What a measurement inside the plateau does to the bracket. */
  lemma PlateauNarrowed(low: Rate, mid: Rate, high: Rate, percent: real)
    requires low > 0.0
    requires percent >= 0.0 ==> SubThreshold(low, high, percent)
    ensures Gain(mid, low) < percent ==> SubThreshold(low, mid, percent)
    ensures Gain(mid, low) >= percent && percent >= 0.0 ==> SubThreshold(mid, high, percent)
  {
    GainIsSubThreshold(low, mid, percent);
    if percent >= 0.0 { StepKeepsPlateau(low, mid, high, percent); }
  }

  // -------------------------------------------------------------- the search

  /** `candidate` is below `failure` by no more than the requested width. */
  ghost predicate Bracketed(candidate: nat, failure: nat, w: Workload) {
    candidate < failure && !TooWide(candidate, failure, w.boundaryPercent)
  }

  lemma NarrowIsBracketed(low: nat, high: nat, w: Workload)
    requires low < high && !TooWide(low, high, w.boundaryPercent)
    ensures Bracketed(low, high, w)
  {
  }

  ghost predicate PlateauFound(below: Load, at: Load, w: Workload) {
    && below.users < at.users
    && (w.plateauPercent >= 0.0 ==> SubThreshold(below.rps, at.rps, w.plateauPercent))
  }

  ghost predicate BoundaryHolds(b: Boundary, passing: seq<Load>, w: Workload) {
    match b
    case Plateau(below, at) =>
      && below in passing && at in passing && PlateauFound(below, at, w)
      && !TooWide(below.users, at.users, w.boundaryPercent)
    case Failure(below, atOrAbove) => below in passing && Bracketed(below.users, atOrAbove, w)
  }

  /**
   What a candidate for confirmation is: a load that passed, bracketed below the
   smallest failure if anything failed; otherwise the upper end of a plateau
   bracket, or the heaviest load tried.
   */
  ghost predicate CandidateHolds(
    candidate: Load, boundary: Option<Boundary>, passing: seq<Load>, failing: Option<nat>, w: Workload)
  {
    && candidate in passing
    && (failing.Some? ==> Bracketed(candidate.users, failing.value, w))
    && (boundary.Some? ==> BoundaryHolds(boundary.value, passing, w))
    && (failing.None? ==>
          if boundary.Some? then boundary.value.Plateau? && candidate == boundary.value.at
          else forall p :: p in passing ==> p.users <= candidate.users)
  }

  /** The search has no load to move to, or its smallest neighbouring loads meet the boundary. */
  predicate Stopping(w: Workload) {
    w.maximumUsers <= w.firstUsers || Converging(w.firstUsers, w.boundaryPercent)
  }

  /** The second load of a ramp. */
  function SecondLoad(w: Workload): nat {
    if w.maximumUsers < w.firstUsers * 2 then w.maximumUsers else w.firstUsers * 2
  }

  /**
   The exact condition for the whole search: if it does not hold, the bisection after
   a ramp that fails at its second load does not stop for some measurements; if it
   holds, no bisection between loads of the search runs for ever.
   */
  lemma SearchStopsExactlyWhenStopping(w: Workload)
    requires w.firstUsers >= 1
    ensures Stopping(w) ==>
              forall low: nat, high: nat, passes: Trial | w.firstUsers <= low < high <= w.maximumUsers ::
                Stops(low, high, w.boundaryPercent, passes)
    ensures (w.firstUsers < w.maximumUsers ==>
               forall passes: Trial :: Stops(w.firstUsers, SecondLoad(w), w.boundaryPercent, passes)) ==>
              Stopping(w)
  {
    hide Stops, Converging;
    if Stopping(w) {
      forall low: nat, high: nat, passes: Trial | w.firstUsers <= low < high <= w.maximumUsers
        ensures Stops(low, high, w.boundaryPercent, passes)
      {
        StillConverging(w.firstUsers, low, w.boundaryPercent);
        StopsExactlyWhenConverging(low, high, w.boundaryPercent);
      }
    }
    if w.firstUsers < w.maximumUsers {
      StopsExactlyWhenConverging(w.firstUsers, SecondLoad(w), w.boundaryPercent);
    }
  }

  lemma CandidateIsBelow(
    candidate: Load, boundary: Option<Boundary>, passing: seq<Load>, failing: Option<nat>, w: Workload)
    requires CandidateHolds(candidate, boundary, passing, failing, w)
    ensures candidate in passing && (failing.Some? ==> candidate.users < failing.value)
  {
  }

  /** A load bracketed below a failure at the candidate is a lighter candidate. */
  lemma LighterCandidate(candidate: Load, load: Load, boundary: Option<Boundary>, before: seq<Load>,
                         passing: seq<Load>, earlier: Option<nat>, failing: nat, w: Workload)
    requires CandidateHolds(candidate, boundary, before, earlier, w) && before <= passing
    requires load in passing && failing <= candidate.users && Bracketed(load.users, failing, w)
    ensures CandidateHolds(load, boundary, passing, Some(failing), w) && load.users < candidate.users
  {
    hide TooWide, SubThreshold;
  }

  lemma PlateauBoundaryHolds(below: Load, at: Load, passing: seq<Load>, w: Workload)
    requires below in passing && at in passing && below.users < at.users
    requires w.plateauPercent >= 0.0 ==> SubThreshold(below.rps, at.rps, w.plateauPercent)
    requires !TooWide(below.users, at.users, w.boundaryPercent)
    ensures BoundaryHolds(Plateau(below, at), passing, w)
  {
  }

  /** The doublings that take `users` to `maximum`. */
  function Doublings(users: nat, maximum: nat): (r: nat)
    requires users >= 1
    decreases maximum - users
  {
    if users >= maximum then 0 else 1 + Doublings(2 * users, maximum)
  }

  lemma DoublingsStep(users: nat, maximum: nat)
    requires 1 <= users < maximum
    ensures var next := if maximum < users * 2 then maximum else users * 2;
            1 + Doublings(next, maximum) == Doublings(users, maximum)
  {
  }

  lemma {:induction false} DoublingsAreTheLogarithm(users: nat, maximum: nat, k: nat)
    requires users >= 1
    ensures Doublings(users, maximum) <= k <==> users * Pow2(k) >= maximum
    decreases k
  {
    if users >= maximum {
      ProductAtLeast(users, Pow2(k));
    } else if k > 0 {
      DoublingsAreTheLogarithm(2 * users, maximum, k - 1);
      ProductDoubles(users, Pow2(k - 1));
    }
  }

  lemma ProductAtLeast(a: nat, b: nat)
    requires b >= 1
    ensures a * b >= a
  {
  }

  lemma ProductDoubles(a: nat, b: nat)
    ensures a * (2 * b) == (2 * a) * b
  {
  }

  /** The measurements of one bisection anywhere in the range of the search. */
  function Span(w: Workload): nat {
    Halvings(w.firstUsers, w.maximumUsers)
  }

  /** The measurements of `n` rounds of confirmation, each with the bisection after it. */
  function RoundsCost(n: nat, w: Workload): nat { n * (w.repetitions + Span(w)) }

  /** The most measurements a search makes. */
  function SearchCost(rounds: nat, w: Workload): nat
    requires w.firstUsers >= 1
  {
    1 + Doublings(w.firstUsers, w.maximumUsers) + 2 * Span(w) + RoundsCost(rounds, w)
  }

  /** The most candidates that can fail their confirmation. */
  function MostRounds(w: Workload): nat {
    if w.maximumUsers < w.firstUsers then 0 else w.maximumUsers - w.firstUsers + 1
  }

  /** After `n` rounds that broke, each at a heavier load than `users`, one more is within the bound. */
  lemma RoundsAreFew(n: nat, users: nat, w: Workload)
    requires w.firstUsers >= 1 && n + users <= w.maximumUsers && w.firstUsers <= users
    ensures SearchCost(n, w) + w.repetitions + Span(w) == SearchCost(n + 1, w) <= SearchCost(MostRounds(w), w)
  {
    hide SearchCost, Span;
    OneMoreRound(n, w);
    FewerRoundsCostLess(n + 1, MostRounds(w), w);
  }

  lemma OneMoreRound(n: nat, w: Workload)
    requires w.firstUsers >= 1
    ensures SearchCost(n + 1, w) == SearchCost(n, w) + w.repetitions + Span(w)
  {
  }

  lemma FewerRoundsCostLess(n: nat, m: nat, w: Workload)
    requires w.firstUsers >= 1 && n <= m
    ensures SearchCost(n, w) <= SearchCost(m, w)
  {
    hide Span, Doublings;
    var cost := w.repetitions + Span(w);
    assert (m - n) * cost >= 0 && m * cost == n * cost + (m - n) * cost;
  }

  // ------------------------------------------------------ broken confirmations

  /** The loads of the confirmations that failed, in the order they were measured. */
  ghost function FailedConfirmations(log: seq<Sample>): seq<nat> {
    if log == [] then []
    else
      var s := log[|log| - 1];
      var before := FailedConfirmations(log[..|log| - 1]);
      if s.phase == Confirming && s.outcome == Failed then before + [s.users] else before
  }

  lemma FailedConfirmationsAppend(log: seq<Sample>, s: Sample)
    ensures FailedConfirmations(log + [s]) ==
            if s.phase == Confirming && s.outcome == Failed then FailedConfirmations(log) + [s.users]
            else FailedConfirmations(log)
  {
    assert (log + [s])[..|log|] == log;
  }

  /** The last measurements are exactly `repetitions` passes at `users`, and these are their results. */
  ghost predicate Confirms(confirmations: seq<Load>, users: nat, log: seq<Sample>, repetitions: nat) {
    && |confirmations| == repetitions <= |log|
    && forall i :: 0 <= i < repetitions ==>
         && confirmations[i].users == users
         && log[|log| - repetitions + i] == Sample(Confirming, users, Passed(confirmations[i].rps))
  }

  type Broken = seq<(Load, seq<Load>)>

  function CandidatesOf(broken: Broken): seq<nat> {
    seq(|broken|, i requires 0 <= i < |broken| => broken[i].0.users)
  }

  /**
   What is recorded of the rounds that broke: candidates that had passed the search,
   one for each failed confirmation, each lighter than the one before and heavier
   than `below`, with the fewer than `repetitions` passes before the failure.
   */
  ghost predicate RoundsBroke(broken: Broken, below: nat, passing: seq<Load>, failed: seq<nat>, repetitions: nat) {
    && CandidatesOf(broken) == failed
    && (forall i :: 0 <= i < |broken| ==> RoundBroke(broken[i], below, passing, repetitions))
    && (forall i, j :: 0 <= i < j < |broken| ==> broken[j].0.users < broken[i].0.users)
  }

  ghost predicate EndsAt(broken: Broken, candidate: Load) {
    broken != [] && broken[|broken| - 1].0 == candidate
  }

  ghost predicate RoundBroke(round: (Load, seq<Load>), below: nat, passing: seq<Load>, repetitions: nat) {
    && round.0 in passing && round.0.users > below && |round.1| < repetitions
    && AllAt(round.1, round.0.users)
  }

  ghost predicate AllAt(loads: seq<Load>, users: nat) {
    forall p :: p in loads ==> p.users == users
  }

  ghost predicate NoneBelow(loads: seq<Load>, users: nat) {
    forall p :: p in loads ==> p.users >= users
  }

  lemma NoRoundBroke(below: nat, passing: seq<Load>, repetitions: nat)
    ensures RoundsBroke([], below, passing, [], repetitions)
  {
  }

  lemma OneMoreBroke(broken: Broken, candidate: Load, passes: seq<Load>, below: nat, before: seq<Load>,
                     passing: seq<Load>, failed: seq<nat>, repetitions: nat)
    requires RoundsBroke(broken, candidate.users, before, failed, repetitions) && before <= passing
    requires below < candidate.users && candidate in before && |passes| < repetitions
    requires AllAt(passes, candidate.users)
    ensures RoundsBroke(broken + [(candidate, passes)], below, passing, failed + [candidate.users], repetitions)
    ensures EndsAt(broken + [(candidate, passes)], candidate)
  {
    var more := broken + [(candidate, passes)];
    forall i | 0 <= i < |more| ensures RoundBroke(more[i], below, passing, repetitions) {
      if i < |broken| { assert RoundBroke(broken[i], candidate.users, before, repetitions); }
    }
    assert CandidatesOf(more) == CandidatesOf(broken) + [candidate.users];
  }

  class CapacitySearch {
    const w: Workload
    /** The outcome of the n-th measured step. */
    const oracle: nat -> Measurement
    /** Whether the campaign has run out of time at the n-th look at the clock. */
    const expired: nat -> bool
    /** The direct run against the backend after confirmation. */
    const calibration: Measurement

    var steps: nat
    var passing: seq<Load>
    var failing: Option<nat>
    ghost var log: seq<Sample>
    /** The loads whose confirmation has failed. */
    ghost var failedRounds: seq<nat>

    /** What holds between any two measurements. */
    ghost predicate Valid()
      reads this
      ensures Valid() ==> InRange(log, w) && SmallestFailure(log, failing) && passing == SearchPasses(log)
      ensures Valid() ==> w.firstUsers >= 1 && (failing.Some? ==> failing.value <= w.maximumUsers)
      ensures Valid() ==> failedRounds == FailedConfirmations(log)
    {
      && steps == |log|
      && w.firstUsers >= 1
      && InRange(log, w)
      && SmallestFailure(log, failing)
      && (failing.Some? ==> w.firstUsers <= failing.value <= w.maximumUsers)
      && passing == SearchPasses(log) && failedRounds == FailedConfirmations(log)
      && ApartInRange(passing, w)
    }

    lemma StepsAreLogged()
      requires Valid()
      ensures steps == |log|
    {
    }

    lemma PassingInRange()
      requires Valid()
      ensures forall p :: p in passing ==> w.firstUsers <= p.users <= w.maximumUsers
    {
    }

    /** No measurement has been made. */
    ghost predicate Fresh()
      reads this
    {
      Valid() && steps == 0 && log == [] && passing == [] && failing.None? && failedRounds == []
    }

    constructor (w: Workload, oracle: nat -> Measurement, expired: nat -> bool, calibration: Measurement)
      requires w.firstUsers >= 1
      ensures Fresh()
      ensures this.w == w && this.oracle == oracle && this.expired == expired && this.calibration == calibration
    {
      this.w, this.oracle, this.expired, this.calibration := w, oracle, expired, calibration;
      steps, passing, failing, log, failedRounds := 0, [], None, [], [];
    }

    /** One measured step. A failure becomes the failing bound, a search pass joins `passing`. */
    method Measure(phase: Phase, users: nat) returns (m: Measurement)
      requires Valid() && w.firstUsers <= users <= w.maximumUsers
      requires failing.Some? ==> users <= failing.value
      requires phase == Searching ==> forall p :: p in passing ==> p.users != users
      modifies this
      ensures Valid()
      ensures log == old(log) + [Sample(phase, users, m)] && m == oracle(old(steps)) && steps == old(steps) + 1
      ensures m == Saturated ==> EndsSaturated(log)
      ensures failing == if m == Failed then Some(users) else old(failing)
      ensures failedRounds ==
              if phase == Confirming && m == Failed then old(failedRounds) + [users] else old(failedRounds)
      ensures passing == if m.Passed? && phase == Searching then old(passing) + [Load(users, m.rps)] else old(passing)
    {
      hide SearchPasses, SmallestFailure, FailedConfirmations, InRange, ApartInRange;
      m := oracle(steps);
      ghost var sample := Sample(phase, users, m);
      SearchPassesAppend(log, sample);
      SmallestFailureAppend(log, sample, failing);
      FailedConfirmationsAppend(log, sample);
      InRangeAppend(log, sample, w);
      if m.Passed? && phase == Searching { ApartAppend(passing, Load(users, m.rps), w); }
      steps, log := steps + 1, log + [sample];
      if m == Failed {
        failing := Some(users);
        if phase == Confirming { failedRounds := failedRounds + [users]; }
      } else if m.Passed? && phase == Searching {
        passing := passing + [Load(users, m.rps)];
      }
    }

    /**
     Doubles the load from `firstUsers` until a failure, a plateau, the maximum
     or the clock. The ramp is at most logarithmic in maximum over first.
     */
    method Ramp() returns (r: RampEnd)
      requires Fresh()
      modifies this
      ensures Valid()
      ensures steps <= 1 + Doublings(w.firstUsers, w.maximumUsers) && failedRounds == []
      ensures Increasing(passing)
      ensures r.RampDone? && failing.Some? ==> forall p :: p in passing ==> p.users < failing.value
      ensures r.RampDone? && r.plateau.Some? ==>
                && failing.None?
                && PlateauSeen(r.plateau.value.0, r.plateau.value.1, passing, w.plateauPercent)
      ensures r.RampRaised? ==> r.exit != EmptyMinimum
      ensures r.RampRaised? && r.exit == HelperSaturated ==> EndsSaturated(log)
    {
      hide EndsSaturated, SearchPasses, SmallestFailure, SubThreshold, Gain, InRange, Valid, Increasing,
           Doublings, GainsBetween, PlateauSeen, FailedConfirmations;
      assert Increasing(passing) by { EmptyIsIncreasing(); }
      var users := w.firstUsers;
      var improvements: seq<real> := [];
      var doublings: nat := 0;
      while users <= w.maximumUsers && !expired(doublings)
        invariant Valid() && failing.None? && failedRounds == [] && steps == |passing| == doublings
        invariant w.firstUsers <= users
        invariant doublings + Doublings(users, w.maximumUsers) <= Doublings(w.firstUsers, w.maximumUsers)
        invariant forall p :: p in passing ==> p.users < users
        invariant Increasing(passing)
        invariant if passing == [] then improvements == [] else GainsBetween(passing, improvements)
        decreases w.maximumUsers - users
      {
        var before := passing;
        var m := Measure(Searching, users);
        if m == Saturated { return RampRaised(HelperSaturated); }
        if m == Failed { return RampDone(None); }
        IncreasingAppend(before, Load(users, m.rps));
        if before != [] {
          var previous := before[|before| - 1];
          if previous.rps == 0.0 { return RampRaised(ZeroDivision); }
          GainsBetweenAppend(before, improvements, Load(users, m.rps));
          improvements := improvements + [Gain(m.rps, previous.rps)];
        } else {
          assert passing == [Load(users, m.rps)];
          FirstPassHasNoGain(Load(users, m.rps));
        }
        if |improvements| >= 2
           && improvements[|improvements| - 2] < w.plateauPercent
           && improvements[|improvements| - 1] < w.plateauPercent {
          LowGainIsPlateau(passing, improvements, w.plateauPercent);
          return RampDone(Some((passing[|passing| - 3], passing[|passing| - 2])));
        }
        if users == w.maximumUsers { return RampDone(None); }
        DoublingsStep(users, w.maximumUsers);
        users := if w.maximumUsers < users * 2 then w.maximumUsers else users * 2;
        doublings := doublings + 1;
      }
      return RampDone(None);
    }

    /** Bisects between `high`, which failed, and the heaviest pass below it. */
    method RefineBelow(high: nat) returns (r: Refinement)
      requires Valid() && failing == Some(high) && high <= w.maximumUsers
      requires Stopping(w)
      modifies this
      ensures Valid() && old(log) <= log && old(passing) <= passing && failedRounds == old(failedRounds)
      ensures r.NothingBelow? <==> NoneBelow(old(passing), high)
      ensures r.NothingBelow? ==> log == old(log) && passing == old(passing)
      ensures r.RefineRaised? ==> EndsSaturated(log)
      ensures r.Refined? ==>
                && r.load in passing && failing.Some? && failing.value <= high
                && Bracketed(r.load.users, failing.value, w)
      ensures var start := HeaviestBelow(old(passing), high);
              start.Some? ==> steps - old(steps) <= Halvings(start.value.users, high)
      ensures steps - old(steps) <= Span(w)
      ensures steps - old(steps) <= Halvings(w.firstUsers, high)
    {
      hide TooWide, Converging, SearchPasses, SmallestFailure, InRange, Valid, Halvings, FailedConfirmations,
           Stopping, Bracketed;
      var eligible := HeaviestBelow(passing, high);
      if eligible.None? { return NothingBelow; }
      var start := eligible.value;
      PassingInRange();
      HalvingsMonotone(start.users, high, w.firstUsers, high);
      HalvingsMonotone(start.users, high, w.firstUsers, w.maximumUsers);
      assert Gap(passing, start.users, high);
      r := Bisect(start, high);
    }

    /** The loop of `RefineBelow`, from a pass with nothing between it and the failure. */
    method Bisect(start: Load, high: nat) returns (r: Refinement)
      requires Valid() && failing == Some(high) && high <= w.maximumUsers && Stopping(w)
      requires start in passing && w.firstUsers <= start.users < high && Gap(passing, start.users, high)
      modifies this
      ensures Valid() && old(log) <= log && old(passing) <= passing && failedRounds == old(failedRounds)
      ensures steps - old(steps) <= Halvings(start.users, high)
      ensures !r.NothingBelow?
      ensures r.RefineRaised? ==> EndsSaturated(log)
      ensures r.Refined? ==>
                && r.load in passing && failing.Some? && failing.value <= high
                && Bracketed(r.load.users, failing.value, w)
    {
      assert Converging(w.firstUsers, w.boundaryPercent);
      hide EndsSaturated, TooWide, Converging, SearchPasses, SmallestFailure, InRange, Valid, Halvings,
           FailedConfirmations, Gap, Span, Stopping, Bracketed, Middle;
      var lowResult, low, top := start, start.users, high;
      ghost var budget := Halvings(low, high);
      ghost var taken: nat := 0;
      while TooWide(low, top, w.boundaryPercent)
        invariant Valid() && old(log) <= log && old(passing) <= passing && failedRounds == old(failedRounds)
        invariant lowResult in passing && w.firstUsers <= lowResult.users == low < top <= high
        invariant failing == Some(top)
        invariant Gap(passing, low, top)
        invariant steps == old(steps) + taken
        invariant taken + Halvings(low, top) <= budget
        decreases top - low
      {
        Midpoint(w.firstUsers, low, top, w.boundaryPercent);
        var users := Middle(low, top);
        GapIsNew(passing, low, users, top);
        ghost var before := passing;
        var m := Measure(Searching, users);
        taken := taken + 1;
        if m == Saturated { return RefineRaised; }
        if m.Passed? {
          GapSplits(before, low, top, Load(users, m.rps));
          low, lowResult := users, Load(users, m.rps);
        } else {
          GapCut(before, low, top, users);
          top := users;
        }
      }
      NarrowIsBracketed(low, top, w);
      return Refined(lowResult);
    }

    /** Turns from a plateau to the failure at `users` inside it. */
    method FailedInside(below: Load, users: nat) returns (r: PlateauEnd)
      requires Valid() && Stopping(w) && failing == Some(users) && users <= w.maximumUsers
      requires below in passing && below.users < users
      modifies this
      ensures Valid() && old(log) <= log && old(passing) <= passing && failedRounds == old(failedRounds)
      ensures users >= w.firstUsers && steps - old(steps) <= Halvings(w.firstUsers, users)
      ensures r.PlateauRaised? ==> r.exit == HelperSaturated && EndsSaturated(log)
      ensures r.PlateauDone? ==>
                && r.boundary.Failure? && r.candidate in passing && BoundaryHolds(r.boundary, passing, w)
                && r.candidate == r.boundary.below && failing == Some(r.boundary.atOrAbove)
    {
      hide EndsSaturated, TooWide, Converging, SearchPasses, SmallestFailure, Valid, Halvings, InRange,
           FailedConfirmations, HeaviestBelow, Span, Stopping;
      PassingInRange();
      var refined := RefineBelow(users);
      match refined {
        case RefineRaised => return PlateauRaised(HelperSaturated);
        case NothingBelow => assert false; // `below` passed below `users`
        case Refined(load) => return PlateauDone(load, Failure(load, failing.value));
      }
    }

    /** Bisects inside a plateau; a failure inside it turns to `RefineBelow`. */
    method RefinePlateau(below: Load, at: Load) returns (r: PlateauEnd)
      requires Valid() && failing.None? && PlateauSeen(below, at, passing, w.plateauPercent)
      requires Stopping(w)
      modifies this
      ensures Valid() && old(log) <= log && old(passing) <= passing && failedRounds == old(failedRounds)
      ensures steps - old(steps) <= Halvings(below.users, at.users) + Halvings(w.firstUsers, at.users)
      ensures steps - old(steps) <= 2 * Span(w)
      ensures r.PlateauRaised? ==> r.exit != EmptyMinimum
      ensures r.PlateauRaised? && r.exit == HelperSaturated ==> EndsSaturated(log)
      ensures r.PlateauDone? ==> r.candidate in passing && BoundaryHolds(r.boundary, passing, w)
      ensures r.PlateauDone? && r.boundary.Plateau? ==>
                && failing.None? && r.candidate == r.boundary.at
                && below.users <= r.boundary.below.users < r.candidate.users <= at.users
                && steps - old(steps) <= Halvings(below.users, at.users)
      ensures r.PlateauDone? && r.boundary.Failure? ==>
                r.candidate == r.boundary.below && failing == Some(r.boundary.atOrAbove)
    {
      hide EndsSaturated, TooWide, Converging, SearchPasses, SmallestFailure, SubThreshold, Gain, Valid,
           Halvings, InRange, FailedConfirmations, HeaviestBelow;
      var lowResult, highResult := below, at;
      var low, high := below.users, at.users;
      PassingInRange();
      ghost var budget := Halvings(low, high);
      HalvingsMonotone(low, high, w.firstUsers, w.maximumUsers);
      HalvingsMonotone(w.firstUsers, high, w.firstUsers, w.maximumUsers);
      assert Converging(w.firstUsers, w.boundaryPercent);
      ghost var taken: nat := 0;
      assert Gap(passing, low, high);
      hide Gap, PlateauSeen, Span, Bracketed, BoundaryHolds, Stopping, Middle;
      while TooWide(low, high, w.boundaryPercent)
        invariant Valid() && failing.None? && old(log) <= log && old(passing) <= passing
        invariant failedRounds == old(failedRounds)
        invariant lowResult in passing && highResult in passing
        invariant lowResult.users == low < high == highResult.users
        invariant w.firstUsers <= below.users <= low && high <= at.users <= w.maximumUsers
        invariant w.plateauPercent >= 0.0 ==> SubThreshold(lowResult.rps, highResult.rps, w.plateauPercent)
        invariant Gap(passing, low, high)
        invariant steps == old(steps) + taken
        invariant taken + Halvings(low, high) <= budget
        decreases high - low
      {
        Midpoint(w.firstUsers, low, high, w.boundaryPercent);
        var users := Middle(low, high);
        GapIsNew(passing, low, users, high);
        ghost var before := passing;
        var m := Measure(Searching, users);
        taken := taken + 1;
        if m == Saturated { return PlateauRaised(HelperSaturated); }
        if m == Failed {
          HalvingsMonotone(w.firstUsers, users, w.firstUsers, at.users);
          r := FailedInside(lowResult, users);
          return;
        }
        if lowResult.rps == 0.0 { return PlateauRaised(ZeroDivision); }
        GapSplits(before, low, high, Load(users, m.rps));
        PlateauNarrowed(lowResult.rps, m.rps, highResult.rps, w.plateauPercent);
        if Gain(m.rps, lowResult.rps) >= w.plateauPercent {
          low, lowResult := users, Load(users, m.rps);
        } else {
          high, highResult := users, Load(users, m.rps);
        }
      }
      PlateauBoundaryHolds(lowResult, highResult, passing, w);
      return PlateauDone(highResult, Plateau(lowResult, highResult));
    }

    /** One round of confirmations at the candidate's load. */
    method ConfirmOnce(candidate: Load) returns (r: Round)
      requires Valid() && candidate in passing
      requires failing.Some? ==> candidate.users <= failing.value
      modifies this
      ensures Valid() && old(log) <= log && passing == old(passing) && steps - old(steps) <= w.repetitions
      ensures failedRounds == if r.BrokeOff? then old(failedRounds) + [candidate.users] else old(failedRounds)
      ensures r.RoundRaised? ==> EndsSaturated(log)
      ensures r.Agreed? ==>
                failing == old(failing) && Confirms(r.passes, candidate.users, log, w.repetitions)
      ensures r.BrokeOff? ==>
                && failing == Some(candidate.users) && |r.passes| < w.repetitions
                && AllAt(r.passes, candidate.users)
                && EndsBroken(log, candidate.users)
    {
      var passes: seq<Load> := [];
      for repetition := 0 to w.repetitions
        invariant Valid() && old(log) <= log && passing == old(passing) && failing == old(failing)
        invariant failedRounds == old(failedRounds)
        invariant |passes| == repetition == steps - old(steps) == |log| - |old(log)|
        invariant forall i :: 0 <= i < |passes| ==>
                    && passes[i].users == candidate.users
                    && log[|old(log)| + i] == Sample(Confirming, candidate.users, Passed(passes[i].rps))
      {
        var m := Measure(Confirming, candidate.users);
        if m == Saturated { return RoundRaised; }
        if m == Failed { return BrokeOff(passes); }
        passes := passes + [Load(candidate.users, m.rps)];
      }
      return Agreed(passes);
    }

    /** Ramps and narrows to the first candidate. */
    method Narrow() returns (s: Start)
      requires Fresh() && Stopping(w)
      modifies this
      ensures Valid() && failedRounds == [] && steps <= SearchCost(0, w)
      ensures s.Ended? ==>
                || (s.verdict.NoLoadPassed? && passing == [] && s.verdict.lightestFailure == failing)
                || (s.verdict.Raised? && s.verdict.exit != EmptyMinimum
                    && (s.verdict.exit == HelperSaturated ==> EndsSaturated(log)))
      ensures s.From? ==> CandidateHolds(s.candidate, s.boundary, passing, failing, w)
    {
      hide EndsSaturated, TooWide, Converging, SearchPasses, SmallestFailure, SubThreshold, Gain, Valid,
           Halvings, Increasing, PlateauSeen, Span, Doublings, FailedConfirmations;
      var ramp := Ramp();
      if ramp.RampRaised? { return Ended(Raised(ramp.exit)); }
      if passing == [] { return Ended(NoLoadPassed(failing)); }
      assert passing[0] in passing;
      PassingInRange();
      if failing.Some? {
        var refined := RefineBelow(failing.value);
        match refined {
          case RefineRaised => return Ended(Raised(HelperSaturated));
          case NothingBelow => assert false; // every ramp load is below the failure
          case Refined(load) => return From(load, None);
        }
      } else if ramp.plateau.Some? {
        var refined := RefinePlateau(ramp.plateau.value.0, ramp.plateau.value.1);
        match refined {
          case PlateauRaised(exit) => return Ended(Raised(exit));
          case PlateauDone(load, found) => return From(load, Some(found));
        }
      } else {
        return From(HeaviestBelow(passing, w.maximumUsers + 1).value, None);
      }
    }

    /** Confirms a candidate, going down to a lighter one as long as a confirmation fails. */
    method Settle(first: Load, boundary: Option<Boundary>) returns (s: Settlement)
      requires Valid() && Stopping(w) && CandidateHolds(first, boundary, passing, failing, w)
      requires failedRounds == [] && steps <= SearchCost(0, w)
      modifies this
      ensures Valid() && steps <= SearchCost(MostRounds(w), w)
      ensures s.Settled? ==>
                && CandidateHolds(s.candidate, boundary, passing, failing, w)
                && RoundsBroke(s.broken, s.candidate.users, passing, failedRounds, w.repetitions)
                && steps <= SearchCost(|s.broken|, w) + w.repetitions
                && Confirms(s.confirmations, s.candidate.users, log, w.repetitions)
      ensures s.Unsettled? && s.verdict.FailedConfirmation? ==>
                && EndsBroken(log, s.verdict.candidate.users)
                && s.verdict.candidate in passing
                && NoneBelow(passing, s.verdict.candidate.users)
                && RoundsBroke(s.verdict.broken, 0, passing, failedRounds, w.repetitions)
                && EndsAt(s.verdict.broken, s.verdict.candidate)
      ensures s.Unsettled? && !s.verdict.FailedConfirmation? ==>
                s.verdict == Raised(HelperSaturated) && EndsSaturated(log)
    {
      hide EndsSaturated, TooWide, Converging, SearchPasses, SmallestFailure, SubThreshold, Gain, Valid,
           Halvings, InRange, FailedConfirmations, RoundsBroke, SearchCost, Span, Doublings, CandidateHolds,
           Bracketed, HeaviestBelow, Stopping, Confirms, AllAt, NoneBelow, MostRounds, EndsBroken, EndsAt;
      var candidate := first;
      var broken: Broken := [];
      NoRoundBroke(candidate.users, passing, w.repetitions);
      CandidateIsBelow(candidate, boundary, passing, failing, w);
      PassingInRange();
      while true
        invariant Valid() && CandidateHolds(candidate, boundary, passing, failing, w)
        invariant RoundsBroke(broken, candidate.users, passing, failedRounds, w.repetitions)
        invariant |broken| + candidate.users <= w.maximumUsers && w.firstUsers <= candidate.users
        invariant steps <= SearchCost(|broken|, w)
        decreases candidate.users
      {
        RoundsAreFew(|broken|, candidate.users, w);
        CandidateIsBelow(candidate, boundary, passing, failing, w);
        ghost var before, earlier, failed := passing, failing, failedRounds;
        var round := ConfirmOnce(candidate);
        if round.RoundRaised? { return Unsettled(Raised(HelperSaturated)); }
        if round.Agreed? { return Settled(candidate, round.passes, broken); }
        var refined := RefineBelow(candidate.users);
        var more := broken + [(candidate, round.passes)];
        match refined {
          case RefineRaised => return Unsettled(Raised(HelperSaturated));
          case NothingBelow =>
            OneMoreBroke(broken, candidate, round.passes, 0, before, passing, failed, w.repetitions);
            return Unsettled(FailedConfirmation(candidate, more));
          case Refined(load) =>
            LighterCandidate(candidate, load, boundary, before, passing, earlier, failing.value, w);
            OneMoreBroke(broken, candidate, round.passes, load.users, before, passing, failed, w.repetitions);
            PassingInRange();
            broken, candidate := more, load;
        }
      }
    }

    /** The whole search. */
    method Search() returns (v: Verdict)
      requires Fresh() && Stopping(w)
      modifies this
      ensures InRange(log, w)
      ensures v.NoLoadPassed? ==> SearchPasses(log) == [] && SmallestFailure(log, v.lightestFailure)
      ensures v.Confirmed? ==>
                && v.search == SearchPasses(log)
                && SmallestFailure(log, v.failing)
                && (exists p :: p in v.search && p.users == v.users &&
                      CandidateHolds(p, v.boundary, v.search, v.failing, w))
                && (v.lowerBound <==> v.users == w.maximumUsers && v.failing.None?)
      ensures v.Confirmed? ==> Confirms(v.confirmations, v.users, log, w.repetitions)
      ensures v.Confirmed? ==>
                && calibration.Passed? && 1.05 * v.rpsMin <= calibration.rps
                && (exists p :: p in v.confirmations && p.rps == v.rpsMin)
                && (forall p :: p in v.confirmations ==> v.rpsMin <= p.rps)
      ensures v.FailedConfirmation? ==>
                && EndsBroken(log, v.candidate.users)
                && v.candidate in SearchPasses(log)
                && NoneBelow(SearchPasses(log), v.candidate.users)
      ensures v.Raised? && v.exit == HelperSaturated ==>
                calibration == Saturated || EndsSaturated(log)
      ensures v.Raised? && v.exit == EmptyMinimum ==> w.repetitions == 0
      ensures v.Confirmed? ==>
                RoundsBroke(v.confirmationFailures, v.users, v.search, FailedConfirmations(log), w.repetitions)
      ensures v.FailedConfirmation? ==>
                && RoundsBroke(v.broken, 0, SearchPasses(log), FailedConfirmations(log), w.repetitions)
                && EndsAt(v.broken, v.candidate)
      ensures |log| <= SearchCost(MostRounds(w), w)
      ensures v.Confirmed? ==> |log| <= SearchCost(|v.confirmationFailures|, w) + w.repetitions
    {
      hide TooWide, Converging, SearchPasses, SmallestFailure, SubThreshold, Gain, Valid, Halvings, InRange,
           FailedConfirmations, RoundsBroke, SearchCost, BoundaryHolds;
      FewerRoundsCostLess(0, MostRounds(w), w);
      var start := Narrow();
      StepsAreLogged();
      if start.Ended? { return start.verdict; }
      var settled := Settle(start.candidate, start.boundary);
      StepsAreLogged();
      if settled.Unsettled? { return settled.verdict; }
      var candidate, confirmations := settled.candidate, settled.confirmations;

      if calibration == Saturated { return Raised(HelperSaturated); }
      if calibration == Failed { return Inconclusive; }
      if confirmations == [] { return Raised(EmptyMinimum); }
      var rpsMin := LowestRate(confirmations);
      if calibration.rps < rpsMin * 1.05 { return Inconclusive; }
      return Confirmed(candidate.users, passing, failing, confirmations, settled.broken, start.boundary, rpsMin,
                       candidate.users == w.maximumUsers && failing.None?);
    }
  }
}
