/**
  The planners of dspark.py: scoring a fixed schedule, the confidence threshold rule, and the
  hardware-aware greedy planner with its early-stop and exhaustive modes.
 */
module PrefixScheduler {
  import opened Wrappers
  import opened PrefixValue
  import opened GreedyOrder

  // ---- score_prefix_lengths ----

  predicate BadRequest(rows: seq<seq<real>>, lengths: seq<int>, i: nat)
    requires |rows| == |lengths| && i < |rows|
  {
    !(0 <= lengths[i] <= |rows[i]|) || !ValidRow(rows[i])
  }

  /** The exception for request i: its length is checked before its confidences. */
  function RequestError(rows: seq<seq<real>>, lengths: seq<int>, i: nat): ScheduleError
    requires |rows| == |lengths| && i < |rows|
  {
    if 0 <= lengths[i] <= |rows[i]| then InvalidConfidence(ValidPrefix(rows[i])) else InvalidLength(i)
  }

  /** Which requests are bad, and what their exception is: a wrong length is reported before any confidence. */
  lemma WhatIsBad(rows: seq<seq<real>>, lengths: seq<int>, i: nat)
    requires |rows| == |lengths| && i < |rows|
    ensures BadRequest(rows, lengths, i)
            <==> lengths[i] < 0 || lengths[i] > |rows[i]|
                 || exists j :: 0 <= j < |rows[i]| && !(0.0 <= rows[i][j] <= 1.0)
    ensures lengths[i] < 0 || lengths[i] > |rows[i]| ==> RequestError(rows, lengths, i) == InvalidLength(i)
    ensures forall j :: 0 <= lengths[i] <= |rows[i]| && 0 <= j < |rows[i]| && !(0.0 <= rows[i][j] <= 1.0)
                        && (forall k :: 0 <= k < j ==> 0.0 <= rows[i][k] <= 1.0) ==>
              RequestError(rows, lengths, i) == InvalidConfidence(j)
  {
    forall j | 0 <= j < |rows[i]| && !(0.0 <= rows[i][j] <= 1.0)
               && (forall k :: 0 <= k < j ==> 0.0 <= rows[i][k] <= 1.0)
      ensures ValidPrefix(rows[i]) == j
    {
      assert !IsProbability(rows[i][j]);
    }
  }

  lemma NoBadRequest(rows: seq<seq<real>>, lengths: seq<int>)
    requires |rows| == |lengths| && forall k :: 0 <= k < |rows| ==> !BadRequest(rows, lengths, k)
    ensures IsSchedule(rows, lengths) && ValidRows(rows)
  {
    forall k | 0 <= k < |rows|
      ensures 0 <= lengths[k] <= |rows[k]| && ValidRow(rows[k])
    {
      assert !BadRequest(rows, lengths, k);
    }
  }

  lemma IsScore(rows: seq<seq<real>>, lengths: seq<int>, curve: StepCurve, expected: real, batchTokens: int)
    requires IsSchedule(rows, lengths) && forall k :: 0 <= k < |rows| ==> !BadRequest(rows, lengths, k)
    requires expected == |rows| as real + MassUpTo(rows, lengths, |rows|)
             && batchTokens == |rows| + Tokens(lengths, |rows|)
    ensures IsSchedule(SurvivalRows(rows), lengths)
    ensures Score(SurvivalRows(rows), lengths, curve)
            == ScheduleResult(lengths, expected, batchTokens, expected * curve(batchTokens))
  {
    hide Mass, Survivals, BadRequest;
    MassUpToIsTotal(rows, lengths, |rows|);
  }

  method ScorePrefixLengths(rows: seq<seq<real>>, lengths: seq<int>, curve: StepCurve)
    returns (r: Result<ScheduleResult, ScheduleError>)
    ensures |rows| != |lengths| ==> r == Failure(CountMismatch)
    ensures |rows| == |lengths| ==>
              (r.Success? <==>
                && IsSchedule(rows, lengths) && ValidRows(rows)
                && curve(|rows| + Tokens(lengths, |lengths|)) >= 0.0)
    ensures r.Success? ==>
              && IsSchedule(SurvivalRows(rows), lengths)
              && r.value == Score(SurvivalRows(rows), lengths, curve)
    ensures r.Failure? && |rows| == |lengths| ==>
              if IsSchedule(rows, lengths) && ValidRows(rows) then r.error == NegativeStepRate
              else exists i ::
                && 0 <= i < |rows| && BadRequest(rows, lengths, i)
                && r.error == RequestError(rows, lengths, i)
                && forall k :: 0 <= k < i ==> !BadRequest(rows, lengths, k)
  {
    hide Survivals, Mass, ValidPrefix, Score, SurvivalRows;
    if |rows| != |lengths| {
      return Failure(CountMismatch);
    }
    var expected := |rows| as real;
    var batchTokens: int := |rows|;
    var normalized: seq<int> := [];
    for i := 0 to |rows|
      invariant forall k :: 0 <= k < i ==> !BadRequest(rows, lengths, k)
      invariant normalized == lengths[..i]
      invariant batchTokens == |rows| + Tokens(lengths, i)
      invariant expected == |rows| as real + MassUpTo(rows, lengths, i)
    {
      var mass := ScoreRequest(rows, lengths, i);
      if mass.Failure? {
        return Failure(mass.error);
      }
      expected := expected + mass.value;
      batchTokens := batchTokens + lengths[i];
      normalized := normalized + [lengths[i]];
    }
    NoBadRequest(rows, lengths);
    IsScore(rows, lengths, curve, expected, batchTokens);
    assert normalized == lengths;
    var rate := curve(batchTokens);
    if rate < 0.0 {
      return Failure(NegativeStepRate);
    }
    return Success(ScheduleResult(normalized, expected, batchTokens, expected * rate));
  }

  /** The body of the scoring loop for one request. */
  method ScoreRequest(rows: seq<seq<real>>, lengths: seq<int>, i: nat) returns (r: Result<real, ScheduleError>)
    requires |rows| == |lengths| && i < |rows|
    ensures r.Failure? <==> BadRequest(rows, lengths, i)
    ensures r.Failure? ==> r.error == RequestError(rows, lengths, i)
    ensures r.Success? ==> 0 <= lengths[i] <= |rows[i]| && r.value == Mass(Survivals(rows[i]), lengths[i])
  {
    if lengths[i] < 0 || lengths[i] > |rows[i]| {
      return Failure(InvalidLength(i));
    }
    var survivals := CumulativeSurvival(rows[i]);
    if survivals.Failure? {
      return Failure(survivals.error);
    }
    var mass := 0.0;
    for j := 0 to lengths[i]
      invariant mass == Mass(Survivals(rows[i]), j)
    {
      mass := mass + survivals.value[j];
    }
    return Success(mass);
  }

  /** TotalMass for a schedule known to be valid only for its first n requests. */
  ghost function MassUpTo(rows: seq<seq<real>>, lengths: seq<int>, n: nat): real
    requires |rows| == |lengths| && n <= |rows| && forall k :: 0 <= k < n ==> !BadRequest(rows, lengths, k)
  {
    if n == 0 then 0.0
    else
      assert !BadRequest(rows, lengths, n - 1);
      MassUpTo(rows, lengths, n - 1) + Mass(Survivals(rows[n - 1]), lengths[n - 1])
  }

  lemma {:induction false} MassUpToIsTotal(rows: seq<seq<real>>, lengths: seq<int>, n: nat)
    requires IsSchedule(rows, lengths) && n <= |rows| && forall k :: 0 <= k < n ==> !BadRequest(rows, lengths, k)
    ensures IsSchedule(SurvivalRows(rows), lengths)
    ensures MassUpTo(rows, lengths, n) == TotalMass(SurvivalRows(rows), lengths, n)
  {
    if n > 0 {
      MassUpToIsTotal(rows, lengths, n - 1);
    }
  }

  // ---- confidence_threshold_prefix_length ----

  /** The admission rule reads position j only while every earlier prefix stays at or above the threshold. */
  predicate Reached(row: seq<real>, threshold: real, j: nat)
    requires j <= |row|
  {
    forall m :: 1 <= m <= j ==> Survival(row, m) >= threshold
  }

  method ConfidenceThresholdPrefixLength(row: seq<real>, threshold: real) returns (r: Result<nat, ScheduleError>)
    ensures r == Failure(InvalidThreshold) <==> !IsProbability(threshold)
    ensures r == Failure(InvalidThreshold) <==> !(0.0 <= threshold <= 1.0)
    ensures r.Failure? && IsProbability(threshold) ==>
              exists j :: 0 <= j < |row| && Reached(row, threshold, j) && !IsProbability(row[j])
    ensures r.Success? ==> forall j :: 0 <= j < |row| && Reached(row, threshold, j) ==> IsProbability(row[j])
    ensures r.Failure? && IsProbability(threshold) ==> r.error == InvalidConfidence(ValidPrefix(row))
    ensures r.Success? ==> r.value <= |row| && Reached(row, threshold, r.value)
    ensures r.Success? && r.value < |row| ==> Survival(row, r.value + 1) < threshold
  {
    if !IsProbability(threshold) {
      return Failure(InvalidThreshold);
    }
    var admitted := 0;
    var survival := 1.0;
    while admitted < |row|
      invariant admitted <= |row| && survival == Survival(row, admitted)
      invariant Reached(row, threshold, admitted)
      invariant forall j :: 0 <= j < admitted ==> IsProbability(row[j])
    {
      assert IsProbability(row[admitted]) || ValidPrefix(row) == admitted;
      if !IsProbability(row[admitted]) {
        return Failure(InvalidConfidence(admitted));
      }
      survival := survival * row[admitted];
      if survival < threshold {
        forall j | admitted < j <= |row|
          ensures !Reached(row, threshold, j)
        {
          assert Survival(row, admitted + 1) < threshold;
        }
        break;
      }
      admitted := admitted + 1;
    }
    return Success(admitted);
  }

  /** What a successful threshold decision is: admit while reached, stop at the first drop. */
  predicate IsThresholdLength(row: seq<real>, threshold: real, n: nat) {
    && n <= |row|
    && Reached(row, threshold, n)
    && (n < |row| ==> Survival(row, n + 1) < threshold)
  }

  /**
    On valid rows the rule admits exactly the prefixes whose survival stays above the threshold, so it is the
    longest.
   */
  lemma ThresholdIsLongest(row: seq<real>, threshold: real, n: nat, m: nat)
    requires ValidRow(row) && IsThresholdLength(row, threshold, n) && 1 <= m <= |row|
    ensures Survival(row, m) >= threshold <==> m <= n
  {
    if m > n {
      SurvivalAntitone(row, n + 1, m);
    }
  }

  lemma {:induction false} SurvivalReadsOnlyItsPrefix(a: seq<real>, b: seq<real>, n: nat)
    requires n <= |a| && n <= |b| && a[..n] == b[..n]
    ensures Survival(a, n) == Survival(b, n)
  {
    if n > 0 {
      assert a[n - 1] == a[..n][n - 1] == b[n - 1];
      assert a[..n - 1] == a[..n][..n - 1] == b[..n - 1];
      SurvivalReadsOnlyItsPrefix(a, b, n - 1);
    }
  }

  /** The decision is non-anticipating: whether position p is admitted depends only on the confidences up to p. */
  lemma ThresholdIsNonAnticipating(a: seq<real>, b: seq<real>, threshold: real, n: nat, m: nat, p: nat)
    requires IsThresholdLength(a, threshold, n) && IsThresholdLength(b, threshold, m)
    requires p <= |a| && p <= |b| && a[..p] == b[..p]
    ensures p <= n <==> p <= m
  {
    forall q | 1 <= q <= p
      ensures Survival(a, q) == Survival(b, q)
    {
      assert a[..q] == a[..p][..q] == b[..q];
      SurvivalReadsOnlyItsPrefix(a, b, q);
    }
  }

  // ---- hardware_aware_prefix_schedule: a walk along a path of schedules ----

  /** One admission: the guard holds for c, and b is a with token c added. */
  predicate StepsTo(c: Candidate, a: ScheduleResult, b: ScheduleResult, curve: StepCurve) {
    && c.request < |a.lengths|
    && c.position == a.lengths[c.request] + 1
    && b.lengths == a.lengths[c.request := c.position]
    && b.batchTokens == a.batchTokens + 1
    && b.expectedAcceptedTokens == a.expectedAcceptedTokens + c.survival
    && b.expectedTokensPerSecond == b.expectedAcceptedTokens * curve(b.batchTokens)
  }

  /** path[k] is the scored schedule after the first k candidates of order. */
  predicate IsPath(order: seq<Candidate>, path: seq<ScheduleResult>, curve: StepCurve) {
    && |path| == |order| + 1
    && forall k :: 0 <= k < |order| ==> StepsTo(order[k], path[k], path[k + 1], curve)
  }

  /** Point k is strictly better than the point before it. */
  predicate Improves(path: seq<ScheduleResult>, k: nat) {
    1 <= k < |path| && path[k].expectedTokensPerSecond > path[k - 1].expectedTokensPerSecond
  }

  /** First point from k on that does not improve on its predecessor, or the end of the path. */
  function StopIndex(path: seq<ScheduleResult>, k: nat): (m: nat)
    requires 1 <= k <= |path|
    ensures k - 1 <= m < |path|
    ensures forall j :: k <= j < m ==> Improves(path, j)
    ensures m == |path| - 1 || (m >= k && !Improves(path, m))
    decreases |path| - k
  {
    if k == |path| then k - 1 else if Improves(path, k) then StopIndex(path, k + 1) else k
  }

  /** Last point the planner evaluates. */
  function LastVisited(path: seq<ScheduleResult>, earlyStop: bool): (m: nat)
    requires |path| > 0
    ensures m < |path|
  {
    if earlyStop then StopIndex(path, 1) else |path| - 1
  }

  /** First index of the best throughput in path[..m + 1]. */
  function FirstBest(path: seq<ScheduleResult>, m: nat): (b: nat)
    requires m < |path|
    ensures b <= m
    ensures forall j :: 0 <= j <= m ==> path[j].expectedTokensPerSecond <= path[b].expectedTokensPerSecond
    ensures forall j :: 0 <= j < b ==> path[j].expectedTokensPerSecond < path[b].expectedTokensPerSecond
  {
    if m == 0 then 0
    else
      var b := FirstBest(path, m - 1);
      if path[m].expectedTokensPerSecond > path[b].expectedTokensPerSecond then m else b
  }

  /** The rate lookup at point k raises. */
  predicate NegativeRate(path: seq<ScheduleResult>, curve: StepCurve, k: nat)
    requires k < |path|
  {
    curve(path[k].batchTokens) < 0.0
  }

  /** The outcome of a walk: the best visited point, unless a visited rate is negative. */
  function Walk(path: seq<ScheduleResult>, curve: StepCurve, earlyStop: bool): Result<ScheduleResult, ScheduleError>
    requires |path| > 0
  {
    var m := LastVisited(path, earlyStop);
    if exists k :: 0 <= k <= m && NegativeRate(path, curve, k) then Failure(NegativeStepRate)
    else Success(path[FirstBest(path, m)])
  }

  /** Every point up to k improved on the one before it: the early-stop planner goes on. */
  predicate Improving(path: seq<ScheduleResult>, k: nat) {
    k < |path| && forall j :: 1 <= j <= k ==> Improves(path, j)
  }

  lemma {:induction false} ImprovingIsBest(path: seq<ScheduleResult>, k: nat)
    requires Improving(path, k)
    ensures FirstBest(path, k) == k
  {
    if k > 0 {
      ImprovingIsBest(path, k - 1);
      assert Improves(path, k);
    }
  }

  lemma {:induction false} StopsHere(path: seq<ScheduleResult>, m: nat, k: nat)
    requires 1 <= k <= m < |path| && !Improves(path, m) && forall j :: k <= j < m ==> Improves(path, j)
    ensures StopIndex(path, k) == m
    decreases m - k
  {
    if k < m {
      StopsHere(path, m, k + 1);
    }
  }

  /** The planner reaches point k: no rate up to k raised, and in early-stop mode every point improved. */
  predicate Reaches(path: seq<ScheduleResult>, curve: StepCurve, earlyStop: bool, k: nat) {
    && k < |path|
    && (forall j :: 0 <= j <= k ==> !NegativeRate(path, curve, j))
    && (earlyStop ==> Improving(path, k))
  }

  /** Evaluating point k + 1 raises, becomes the new best, ends the walk, or leaves the best as it was. */
  lemma NextPoint(path: seq<ScheduleResult>, curve: StepCurve, earlyStop: bool, k: nat)
    requires k + 1 < |path| && Reaches(path, curve, earlyStop, k)
    ensures var best := path[FirstBest(path, k)];
            if NegativeRate(path, curve, k + 1) then Walk(path, curve, earlyStop) == Failure(NegativeStepRate)
            else if path[k + 1].expectedTokensPerSecond > best.expectedTokensPerSecond then
              Reaches(path, curve, earlyStop, k + 1) && path[FirstBest(path, k + 1)] == path[k + 1]
            else
              && path[FirstBest(path, k + 1)] == best
              && (earlyStop ==> Walk(path, curve, earlyStop) == Success(best))
              && (!earlyStop ==> Reaches(path, curve, earlyStop, k + 1))
  {
    if earlyStop {
      ImprovingIsBest(path, k);
      if !Improves(path, k + 1) {
        StopsHere(path, k + 1, 1);
      }
    }
  }

  lemma EndOfPath(path: seq<ScheduleResult>, curve: StepCurve, earlyStop: bool)
    requires |path| > 0 && Reaches(path, curve, earlyStop, |path| - 1)
    ensures Walk(path, curve, earlyStop) == Success(path[FirstBest(path, |path| - 1)])
  {
  }

  /** Add token c to schedule a and evaluate the step rate there. */
  method Admit(c: Candidate, a: ScheduleResult, curve: StepCurve, ghost b: ScheduleResult)
    returns (r: Result<ScheduleResult, ScheduleError>)
    requires StepsTo(c, a, b, curve)
    ensures r == if curve(b.batchTokens) < 0.0 then Failure(NegativeStepRate) else Success(b)
  {
    var lengths := a.lengths[c.request := c.position];
    var batchTokens := a.batchTokens + 1;
    var expected := a.expectedAcceptedTokens + c.survival;
    var rate := curve(batchTokens);
    if rate < 0.0 {
      return Failure(NegativeStepRate);
    }
    var tokensPerSecond := expected * rate;
    assert expected == b.expectedAcceptedTokens && rate == curve(b.batchTokens);
    assert tokensPerSecond == b.expectedTokensPerSecond;
    return Success(ScheduleResult(lengths, expected, batchTokens, tokensPerSecond));
  }

  /** The admission loop. */
  method AdmitGreedily(order: seq<Candidate>, start: ScheduleResult, curve: StepCurve, earlyStop: bool,
                       ghost path: seq<ScheduleResult>)
    returns (r: Result<ScheduleResult, ScheduleError>)
    requires IsPath(order, path, curve) && path[0] == start && !NegativeRate(path, curve, 0)
    ensures r == Walk(path, curve, earlyStop)
  {
    var current, best := start, start;
    var k := 0;
    while k < |order|
      invariant 0 <= k <= |order| && Reaches(path, curve, earlyStop, k)
      invariant current == path[k]
      invariant best == path[FirstBest(path, k)]
    {
      NextPoint(path, curve, earlyStop, k);
      var c := order[k];
      if c.position == current.lengths[c.request] + 1 {
        var next := Admit(c, current, curve, path[k + 1]);
        if next.Failure? {
          return Failure(next.error);
        }
        current := next.value;
        if current.expectedTokensPerSecond > best.expectedTokensPerSecond {
          best := current;
        } else if earlyStop {
          return Success(best);
        }
      }
      k := k + 1;
    }
    EndOfPath(path, curve, earlyStop);
    return Success(best);
  }

  // ---- hardware_aware_prefix_schedule: the greedy path over survival rows ----

  /** The schedule after k admissions of the greedy order. */
  function Point(rows: seq<seq<real>>, k: nat): (v: seq<int>)
    requires AllDecay(rows) && k <= |Order(rows)|
    ensures IsSchedule(rows, v) && Tokens(v, |rows|) == k
  {
    OrderIsGreedy(rows);
    PathTokens(rows, Order(rows), k);
    GreedyLengths(|rows|, Order(rows), k)
  }

  /** The scored points of the greedy path. */
  function Path(rows: seq<seq<real>>, curve: StepCurve): (path: seq<ScheduleResult>)
    requires AllDecay(rows)
    ensures |path| == |Order(rows)| + 1
    ensures forall k :: 0 <= k < |path| ==> path[k] == Score(rows, Point(rows, k), curve)
  {
    seq(|Order(rows)| + 1, k requires 0 <= k <= |Order(rows)| => Score(rows, Point(rows, k), curve))
  }

  /** The planner over survival rows. */
  function Plan(rows: seq<seq<real>>, curve: StepCurve, earlyStop: bool): Result<ScheduleResult, ScheduleError>
    requires AllDecay(rows)
  {
    Walk(Path(rows, curve), curve, earlyStop)
  }

  function FirstInvalidRow(rows: seq<seq<real>>): (n: nat)
    ensures n <= |rows| && forall i :: 0 <= i < n ==> ValidRow(rows[i])
    ensures n < |rows| ==> !ValidRow(rows[n])
  {
    if rows == [] || !ValidRow(rows[0]) then 0 else 1 + FirstInvalidRow(rows[1..])
  }

  /** The outcome of a planning call on confidence rows. */
  function Schedule(rows: seq<seq<real>>, curve: StepCurve, earlyStop: bool): Result<ScheduleResult, ScheduleError> {
    if curve(|rows|) < 0.0 then Failure(NegativeStepRate)
    else if !ValidRows(rows) then Failure(InvalidConfidence(ValidPrefix(rows[FirstInvalidRow(rows)])))
    else
      SurvivalRowsDecay(rows);
      Plan(SurvivalRows(rows), curve, earlyStop)
  }

  /** Confidence j of request i is the first that is no probability, in reading order. */
  predicate FirstBadConfidence(rows: seq<seq<real>>, i: nat, j: nat) {
    && i < |rows| && j < |rows[i]| && !(0.0 <= rows[i][j] <= 1.0)
    && (forall k :: 0 <= k < j ==> 0.0 <= rows[i][k] <= 1.0)
    && forall m, k :: 0 <= m < i && 0 <= k < |rows[m]| ==> 0.0 <= rows[m][k] <= 1.0
  }

  lemma BadConfidences(rows: seq<seq<real>>)
    ensures ValidRows(rows) ==> forall i: nat, j: nat :: !FirstBadConfidence(rows, i, j)
    ensures !ValidRows(rows) ==>
              && FirstInvalidRow(rows) < |rows|
              && FirstBadConfidence(rows, FirstInvalidRow(rows), ValidPrefix(rows[FirstInvalidRow(rows)]))
    ensures forall i: nat, j: nat :: FirstBadConfidence(rows, i, j) ==>
              i == FirstInvalidRow(rows) && j == ValidPrefix(rows[i])
  {
    var n := FirstInvalidRow(rows);
    if n < |rows| {
      var p := ValidPrefix(rows[n]);
      assert p < |rows[n]|;
    }
    forall i: nat, j: nat | FirstBadConfidence(rows, i, j)
      ensures i == n && j == ValidPrefix(rows[i])
    {
      assert !IsProbability(rows[i][j]);
      assert !ValidRow(rows[i]);
    }
  }

  /** What a failing call raises: a negative rate of the empty schedule first, then the first bad confidence. */
  ghost predicate RaisesInOrder(rows: seq<seq<real>>, curve: StepCurve, r: Result<ScheduleResult, ScheduleError>) {
    if curve(|rows|) < 0.0 then r == Failure(NegativeStepRate)
    else
      && (forall i: nat, j: nat :: FirstBadConfidence(rows, i, j) ==> r == Failure(InvalidConfidence(j)))
      && (r.Failure? && r.error != NegativeStepRate ==> exists i: nat, j: nat :: FirstBadConfidence(rows, i, j))
  }

  lemma ScheduleRaises(rows: seq<seq<real>>, curve: StepCurve, earlyStop: bool)
    ensures RaisesInOrder(rows, curve, Schedule(rows, curve, earlyStop))
  {
    hide Survivals, Order, ValidPrefix, FirstInvalidRow, FirstBadConfidence, ValidRows;
    BadConfidences(rows);
  }

  /** The loop that collects the positive-survival tokens in (request, position) order. */
  method CollectCandidates(rows: seq<seq<real>>) returns (r: Result<seq<Candidate>, ScheduleError>)
    ensures r.Success? <==> ValidRows(rows)
    ensures r.Success? ==> r.value == AllCandidates(SurvivalRows(rows), |rows|)
    ensures r.Failure? ==> r.error == InvalidConfidence(ValidPrefix(rows[FirstInvalidRow(rows)]))
  {
    hide Survivals;
    var candidates: seq<Candidate> := [];
    for i := 0 to |rows|
      invariant FirstInvalidRow(rows) >= i
      invariant candidates == AllCandidates(SurvivalRows(rows), i)
    {
      var survivals := CumulativeSurvival(rows[i]);
      if survivals.Failure? {
        return Failure(survivals.error);
      }
      var own := CollectRow(SurvivalRows(rows), i, survivals.value);
      candidates := candidates + own;
    }
    return Success(candidates);
  }

  /** The candidates of one request. */
  method CollectRow(ghost rows: seq<seq<real>>, i: nat, survivals: seq<real>) returns (own: seq<Candidate>)
    requires i < |rows| && survivals == rows[i]
    ensures own == RowCandidates(rows, i, |survivals|)
  {
    own := [];
    for j := 0 to |survivals|
      invariant own == RowCandidates(rows, i, j)
    {
      if survivals[j] > 0.0 {
        own := own + [Candidate(survivals[j], i, j + 1)];
      }
    }
  }

  method HardwareAwarePrefixSchedule(rows: seq<seq<real>>, curve: StepCurve, earlyStop: bool)
    returns (r: Result<ScheduleResult, ScheduleError>)
    ensures r == Schedule(rows, curve, earlyStop)
  {
    hide Survival, Mass, TotalMass, Tokens, Expected, Sort, AllCandidates;
    var lengths := seq(|rows|, _ => 0);
    var batchTokens: int := |rows|;
    if curve(batchTokens) < 0.0 {
      return Failure(NegativeStepRate);
    }
    var expected := |rows| as real;
    var start := ScheduleResult(lengths, expected, batchTokens, expected * curve(batchTokens));
    var candidates := CollectCandidates(rows);
    if candidates.Failure? {
      return Failure(candidates.error);
    }
    var order := Sort(candidates.value);
    SurvivalRowsDecay(rows);
    GreedyPathIsPath(SurvivalRows(rows), curve);
    r := AdmitGreedily(order, start, curve, earlyStop, Path(SurvivalRows(rows), curve));
  }

  /** The greedy path starts at the empty schedule and admits the candidates of the order one by one, skipping none. */
  lemma GreedyPathIsPath(rows: seq<seq<real>>, curve: StepCurve)
    requires AllDecay(rows)
    ensures IsPath(Order(rows), Path(rows, curve), curve)
    ensures Path(rows, curve)[0]
            == ScheduleResult(seq(|rows|, _ => 0), |rows| as real, |rows|, |rows| as real * curve(|rows|))
  {
    ZeroSchedule(rows, Point(rows, 0), |rows|);
    forall k | 0 <= k < |Order(rows)|
      ensures StepsTo(Order(rows)[k], Path(rows, curve)[k], Path(rows, curve)[k + 1], curve)
    {
      GreedyStep(rows, curve, k);
    }
  }

  lemma GreedyStep(rows: seq<seq<real>>, curve: StepCurve, k: nat)
    requires AllDecay(rows) && k < |Order(rows)|
    ensures StepsTo(Order(rows)[k], Score(rows, Point(rows, k), curve), Score(rows, Point(rows, k + 1), curve), curve)
  {
    hide Mass, TotalMass, Tokens, GreedyLengths, Order, IsGreedyOrder, AllDecay;
    OrderIsGreedy(rows);
    PathNeverSkips(rows, Order(rows), k);
    PathStep(rows, Order(rows), k);
  }
}
