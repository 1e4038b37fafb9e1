/**
  How the proposer picks the draft lengths of a step: the profiled step-rate table, and the
  dispatch between the forced, off, threshold and hardware schedulers (dspark_proposer.py).
 */
module DraftLengths {
  import opened Wrappers
  import opened PrefixValue
  import opened GreedyOrder
  import opened PrefixScheduler
  import opened SchedulerTheorems
  import opened GreedyGains
  import opened CurveConditions
  import BatchRuns

  // ---- The step-rate table ----

  type RateTable = seq<(int, real)>

  /** What parsing guarantees: keys positive and ascending, rates non-negative. */
  predicate Profiled(table: RateTable) {
    && (forall i :: 0 <= i < |table| ==> table[i].0 > 0 && table[i].1 >= 0.0)
    && (forall i, j :: 0 <= i < j < |table| ==> table[i].0 < table[j].0)
  }

  predicate RatesFall(table: RateTable) {
    forall i, j :: 0 <= i <= j < |table| ==> table[i].1 >= table[j].1
  }

  /** Number of leading entries whose key is at most n. */
  function Covered(table: RateTable, n: int): (c: nat)
    ensures c <= |table|
    ensures forall i :: 0 <= i < c ==> table[i].0 <= n
    ensures c < |table| ==> n < table[c].0
  {
    if table == [] || n < table[0].0 then 0 else 1 + Covered(table[1..], n)
  }

  function RateAt(table: RateTable, n: int): real {
    if table == [] then 1.0
    else if Covered(table, n) == 0 then table[0].1
    else table[Covered(table, n) - 1].1
  }

  /** Entry i is the one whose range holds n: the last with a key of at most n, or the first if there is none. */
  predicate IsRangeOf(table: RateTable, i: nat, n: int)
    requires i < |table|
  {
    (i == 0 || table[i].0 <= n) && (i + 1 == |table| || n < table[i + 1].0)
  }

  /** Without a profile every token count has rate 1. */
  lemma EmptyTableIsOne(n: int)
    ensures RateAt([], n) == 1.0
  {
  }

  method StepsPerSecond(table: RateTable, batchTokens: int) returns (rate: real)
    ensures rate == RateAt(table, batchTokens)
    ensures |table| == 0 ==> rate == 1.0
    ensures forall i :: 0 <= i < |table| && Profiled(table) && IsRangeOf(table, i, batchTokens) ==> rate == table[i].1
  {
    forall i | 0 <= i < |table| && Profiled(table) && IsRangeOf(table, i, batchTokens)
      ensures RateAt(table, batchTokens) == table[i].1
    {
      LookupIsProfiledEntry(table, batchTokens, i);
    }
    if |table| == 0 {
      return 1.0;
    }
    rate := table[0].1;
    var i := 0;
    while i < |table|
      invariant 0 <= i <= Covered(table, batchTokens)
      invariant rate == if i == 0 then table[0].1 else table[i - 1].1
    {
      if batchTokens < table[i].0 {
        break;
      }
      assert i < Covered(table, batchTokens);
      rate := table[i].1;
      i := i + 1;
    }
  }

  /**
    The lookup answers with the profiled entry whose range contains n; below the first key it answers with the
    first rate.
   */
  lemma LookupIsProfiledEntry(table: RateTable, n: int, i: nat)
    requires Profiled(table) && i < |table|
    requires IsRangeOf(table, i, n)
    ensures RateAt(table, n) == table[i].1
  {
    var c := Covered(table, n);
    assert c <= i + 1;
  }

  function Curve(table: RateTable): StepCurve {
    n => RateAt(table, n)
  }

  lemma LookupNonNegative(table: RateTable, n: int)
    requires Profiled(table)
    ensures RateAt(table, n) >= 0.0
  {
  }

  lemma {:induction false} CoveredMonotone(table: RateTable, m: int, n: int)
    requires m <= n
    ensures Covered(table, m) <= Covered(table, n)
  {
    if table != [] && table[0].0 <= m {
      CoveredMonotone(table[1..], m, n);
    }
  }

  /** A table with falling rates gives a non-increasing curve. */
  lemma LookupNonIncreasing(table: RateTable)
    requires Profiled(table) && RatesFall(table)
    ensures NonIncreasing(Curve(table))
  {
    forall m: int, n: int | m <= n
      ensures Faster(Curve(table), m, n)
    {
      CoveredMonotone(table, m, n);
    }
  }

  // ---- _schedule_from_confidence ----

  datatype Mode = Off | Threshold | Hardware

  datatype Config = Config(numSpec: nat, forced: Option<nat>, mode: Mode, threshold: real, earlyStop: bool,
                           table: RateTable)

  function Truncated(rows: seq<seq<real>>, n: nat): (t: seq<seq<real>>)
    ensures |t| == |rows| && forall i :: 0 <= i < |t| ==> |t[i]| <= n
    ensures forall i :: 0 <= i < |t| ==> t[i] == if |rows[i]| <= n then rows[i] else rows[i][..n]
  {
    seq(|rows|, i requires 0 <= i < |rows| => if |rows[i]| <= n then rows[i] else rows[i][..n])
  }

  function Min(a: nat, b: nat): (m: nat)
    ensures m <= a && m <= b && (m == a || m == b)
  {
    if a <= b then a else b
  }

  /** The lengths a mode other than hardware assigns to the truncated rows. */
  predicate PlainLengths(config: Config, rows: seq<seq<real>>, lengths: seq<int>) {
    && |lengths| == |rows|
    && forall i :: 0 <= i < |rows| ==>
         if config.forced.Some? then lengths[i] == Min(config.forced.value, |rows[i]|)
         else if config.mode == Off || config.threshold <= 0.0 then lengths[i] == |rows[i]|
         else 0 <= lengths[i] && IsThresholdLength(rows[i], config.threshold, lengths[i])
  }

  predicate UsesHardware(config: Config) {
    config.forced.None? && config.mode == Hardware
  }

  /** What a successful call returns. */
  predicate IsOutcome(config: Config, rows: seq<seq<real>>, s: ScheduleResult) {
    var t := Truncated(rows, config.numSpec);
    && ValidRows(t)
    && IsSchedule(SurvivalRows(t), s.lengths)
    && s == Score(SurvivalRows(t), s.lengths, Curve(config.table))
    && if UsesHardware(config) then Schedule(t, Curve(config.table), config.earlyStop) == Success(s)
       else PlainLengths(config, t, s.lengths)
  }

  predicate UsesThreshold(config: Config) {
    config.forced.None? && config.mode == Threshold && config.threshold > 0.0
  }

  /** The threshold rule reads a confidence of the row that is no probability. */
  predicate Raises(row: seq<real>, threshold: real) {
    exists j :: 0 <= j < |row| && Reached(row, threshold, j) && !IsProbability(row[j])
  }

  predicate FirstRaising(rows: seq<seq<real>>, threshold: real, i: nat) {
    i < |rows| && Raises(rows[i], threshold) && forall k :: 0 <= k < i ==> !Raises(rows[k], threshold)
  }

  predicate NoneRaises(rows: seq<seq<real>>, threshold: real) {
    forall k :: 0 <= k < |rows| ==> !Raises(rows[k], threshold)
  }

  predicate FirstInvalid(rows: seq<seq<real>>, i: nat) {
    i < |rows| && !ValidRow(rows[i]) && forall k :: 0 <= k < i ==> ValidRow(rows[k])
  }

  /**
    The row a failing call names: the first invalid one, but the threshold rule first reads what it needs of
    every row.
   */
  predicate OffendingRow(config: Config, rows: seq<seq<real>>, i: nat) {
    if UsesThreshold(config) && !NoneRaises(rows, config.threshold) then FirstRaising(rows, config.threshold, i)
    else FirstInvalid(rows, i)
  }

  predicate IsFailure(config: Config, rows: seq<seq<real>>, error: ScheduleError) {
    exists i: nat :: i < |rows| && OffendingRow(config, rows, i) && error == InvalidConfidence(ValidPrefix(rows[i]))
  }

  /** Lengths within the rows fail exactly on invalid rows, and name the first. */
  method ScoreFitting(config: Config, rows: seq<seq<real>>, lengths: seq<int>)
    returns (r: Result<ScheduleResult, ScheduleError>)
    requires Profiled(config.table) && IsSchedule(rows, lengths)
    ensures r.Success? <==> ValidRows(rows)
    ensures r.Success? ==> IsSchedule(SurvivalRows(rows), lengths)
    ensures r.Success? ==> r.value == Score(SurvivalRows(rows), lengths, Curve(config.table))
    ensures r.Failure? ==>
              exists i: nat :: i < |rows| && FirstInvalid(rows, i) && r.error == InvalidConfidence(ValidPrefix(rows[i]))
  {
    hide Survivals, Mass, TotalMass, Tokens, Expected, ValidPrefix, Score;
    LookupNonNegative(config.table, |rows| + Tokens(lengths, |lengths|));
    r := ScorePrefixLengths(rows, lengths, Curve(config.table));
    if r.Failure? {
      var i :| 0 <= i < |rows| && BadRequest(rows, lengths, i) && r.error == RequestError(rows, lengths, i)
               && forall k :: 0 <= k < i ==> !BadRequest(rows, lengths, k);
      forall k | 0 <= k < i
        ensures ValidRow(rows[k])
      {
        assert !BadRequest(rows, lengths, k);
      }
      assert FirstInvalid(rows, i);
    }
  }

  method ScheduleFromConfidence(config: Config, rows: seq<seq<real>>) returns (r: Result<ScheduleResult, ScheduleError>)
    requires Profiled(config.table) && IsProbability(config.threshold)
    ensures r.Success? <==> ValidRows(Truncated(rows, config.numSpec))
    ensures r.Success? ==> IsOutcome(config, rows, r.value)
    ensures r.Failure? ==> IsFailure(config, Truncated(rows, config.numSpec), r.error)
    ensures r.Success? ==> |r.value.lengths| == |rows|
    ensures r.Success? && config.forced.Some? ==>
              forall i :: 0 <= i < |rows| ==>
                IsLeast(r.value.lengths[i], config.forced.value, config.numSpec, |rows[i]|)
    ensures r.Success? && config.forced.None?
            && (config.mode == Off || (config.mode == Threshold && config.threshold <= 0.0)) ==>
              forall i :: 0 <= i < |rows| ==> IsLeast(r.value.lengths[i], config.numSpec, config.numSpec, |rows[i]|)
    ensures r.Success? && config.forced.None? && config.mode == Threshold && config.threshold > 0.0 ==>
              forall i, m :: 0 <= i < |rows| && 1 <= m <= |rows[i]| && m <= config.numSpec ==>
                (m <= r.value.lengths[i] <==> Survival(rows[i], m) >= config.threshold)
    ensures r.Success? && |config.table| == 0 ==> r.value.expectedTokensPerSecond == r.value.expectedAcceptedTokens
    ensures r.Success? && |config.table| == 0 && config.forced.None? && config.mode == Hardware ==>
              forall i, j :: 0 <= i < |rows| && 0 <= j < |rows[i]| && j < config.numSpec ==>
                (j < r.value.lengths[i] <==> AllPositive(rows[i], j))
  {
    OutcomeLengths(config, rows);
    ThresholdOutcome(config, rows);
    UnprofiledOutcome(config, rows);
    hide Survivals, Mass, TotalMass, Tokens, Expected, Schedule, ValidPrefix, Raises;
    var t := Truncated(rows, config.numSpec);
    var curve := Curve(config.table);
    if config.forced.Some? {
      var lengths: seq<int> :=
          seq(|t|, i requires 0 <= i < |t| => Min(Min(config.forced.value, config.numSpec), |t[i]|));
      r := ScoreFitting(config, t, lengths);
      return;
    }
    if config.mode == Hardware {
      r := HardwareAwarePrefixSchedule(t, curve, config.earlyStop);
      HardwareOutcome(config, rows);
      if r.Failure? {
        HardwareFailure(config, t);
      }
      return;
    }
    var lengths: seq<int>;
    if config.mode == Off || config.threshold <= 0.0 {
      lengths := seq(|t|, i requires 0 <= i < |t| => Min(config.numSpec, |t[i]|));
    } else {
      var admitted := ThresholdLengths(t, config.threshold);
      if admitted.Failure? {
        RaisingIsInvalid(t, config.threshold);
        return Failure(admitted.error);
      }
      lengths := admitted.value;
    }
    r := ScoreFitting(config, t, lengths);
  }

  /** n is the least of three limits. */
  predicate IsLeast(n: int, a: nat, b: nat, c: nat) {
    n <= a && n <= b && n <= c && (n == a || n == b || n == c)
  }

  /** The confidences of a row up to position j are all positive. */
  predicate AllPositive(row: seq<real>, j: nat)
    requires j < |row|
  {
    forall k :: 0 <= k <= j ==> row[k] > 0.0
  }

  lemma {:induction false} SurvivalPositive(row: seq<real>, j: nat)
    requires ValidRow(row) && j < |row|
    ensures Survival(row, j + 1) > 0.0 <==> AllPositive(row, j)
  {
    assert Survival(row, j + 1) == Survival(row, j) * row[j];
    assert IsProbability(row[j]);
    SurvivalBounds(row, j);
    PositiveProduct(Survival(row, j), row[j]);
    if j > 0 {
      SurvivalPositive(row, j - 1);
      assert AllPositive(row, j) <==> AllPositive(row, j - 1) && row[j] > 0.0;
    } else {
      assert Survival(row, 0) == 1.0 by {
        NothingSurvives(row);
      }
    }
  }

  lemma NothingSurvives(row: seq<real>)
    ensures Survival(row, 0) == 1.0
  {
  }

  lemma PositiveProduct(x: real, y: real)
    requires x >= 0.0 && y >= 0.0
    ensures x * y > 0.0 <==> x > 0.0 && y > 0.0
  {
  }

  /** The lengths of a forced or unscheduled outcome, whatever the result. */
  lemma OutcomeLengths(config: Config, rows: seq<seq<real>>)
    ensures forall s: ScheduleResult :: IsOutcome(config, rows, s) ==>
              && |s.lengths| == |rows|
              && (config.forced.Some? ==> forall i :: 0 <= i < |rows| ==>
                    IsLeast(s.lengths[i], config.forced.value, config.numSpec, |rows[i]|))
              && ((config.forced.None?
                   && (config.mode == Off || (config.mode == Threshold && config.threshold <= 0.0))) ==>
                    forall i :: 0 <= i < |rows| ==>
                      IsLeast(s.lengths[i], config.numSpec, config.numSpec, |rows[i]|))
  {
    hide Score, SurvivalRows, ValidRows;
  }

  /** Under the threshold rule a prefix is scheduled exactly when its survival reaches the threshold. */
  lemma ThresholdOutcome(config: Config, rows: seq<seq<real>>)
    ensures UsesThreshold(config) ==>
              forall s: ScheduleResult :: IsOutcome(config, rows, s) ==>
                forall i, m :: 0 <= i < |rows| && 1 <= m <= |rows[i]| && m <= config.numSpec && i < |s.lengths| ==>
                  (m <= s.lengths[i] <==> Survival(rows[i], m) >= config.threshold)
  {
    hide Survival, Score;
    if UsesThreshold(config) {
      var t := Truncated(rows, config.numSpec);
      forall s: ScheduleResult, i, m | IsOutcome(config, rows, s) && 0 <= i < |rows| && 1 <= m <= |rows[i]|
                                       && m <= config.numSpec && i < |s.lengths|
        ensures m <= s.lengths[i] <==> Survival(rows[i], m) >= config.threshold
      {
        ThresholdIsLongest(t[i], config.threshold, s.lengths[i], m);
        SurvivalReadsOnlyItsPrefix(t[i], rows[i], m);
      }
    }
  }

  /** Without a profile the throughput is the expected tokens, and the planner takes every token that can survive. */
  lemma UnprofiledOutcome(config: Config, rows: seq<seq<real>>)
    ensures |config.table| == 0 ==>
              forall s: ScheduleResult :: IsOutcome(config, rows, s) ==>
                && s.expectedTokensPerSecond == s.expectedAcceptedTokens
                && (UsesHardware(config) ==>
                      forall i, j :: 0 <= i < |rows| && 0 <= j < |rows[i]| && j < config.numSpec && i < |s.lengths| ==>
                        (j < s.lengths[i] <==> AllPositive(rows[i], j)))
  {
    if |config.table| == 0 {
      assert config.table == [];
      forall s: ScheduleResult | IsOutcome(config, rows, s)
        ensures s.expectedTokensPerSecond == s.expectedAcceptedTokens
        ensures UsesHardware(config) ==>
                  forall i, j :: 0 <= i < |rows| && 0 <= j < |rows[i]| && j < config.numSpec && i < |s.lengths| ==>
                    (j < s.lengths[i] <==> AllPositive(rows[i], j))
      {
        UnprofiledThroughput(config, rows, s);
        if UsesHardware(config) {
          UnprofiledHardware(config, rows, s);
        }
      }
    }
  }

  lemma UnprofiledThroughput(config: Config, rows: seq<seq<real>>, s: ScheduleResult)
    requires config.table == [] && IsOutcome(config, rows, s)
    ensures s.expectedTokensPerSecond == s.expectedAcceptedTokens
  {
    hide Expected, Tokens;
    var t := Truncated(rows, config.numSpec);
    EmptyTableIsOne(|t| + Tokens(s.lengths, |s.lengths|));
    assert Throughput(SurvivalRows(t), s.lengths, Curve([])) == Expected(SurvivalRows(t), s.lengths) * 1.0;
  }

  lemma UnprofiledHardware(config: Config, rows: seq<seq<real>>, s: ScheduleResult)
    requires config.table == [] && IsOutcome(config, rows, s) && UsesHardware(config)
    ensures |s.lengths| == |rows|
    ensures forall i, j :: 0 <= i < |rows| && 0 <= j < |rows[i]| && j < config.numSpec ==>
              (j < s.lengths[i] <==> AllPositive(rows[i], j))
  {
    hide Order, AllPositive, Survival, Score, Plan;
    var t := Truncated(rows, config.numSpec);
    var curve := Curve([]);
    SurvivalRowsDecay(t);
    forall n: int
      ensures curve(n) == 1.0
    {
      EmptyTableIsOne(n);
    }
    RisingTakesAll(SurvivalRows(t), curve, config.earlyStop);
    forall i, j | 0 <= i < |rows| && 0 <= j < |rows[i]| && j < config.numSpec
      ensures j < s.lengths[i] <==> AllPositive(rows[i], j)
    {
      SurvivalPositive(t[i], j);
      assert SurvivalRows(t)[i][j] == Survival(t[i], j + 1);
      SamePrefixPositive(rows[i], t[i], j);
    }
  }

  lemma SamePrefixPositive(row: seq<real>, t: seq<real>, j: nat)
    requires j < |t| <= |row| && t == row[..|t|]
    ensures AllPositive(row, j) <==> AllPositive(t, j)
  {
  }

  lemma HardwareFailure(config: Config, rows: seq<seq<real>>)
    requires Profiled(config.table) && !ValidRows(rows)
    ensures var r := Schedule(rows, Curve(config.table), config.earlyStop);
            && FirstInvalid(rows, FirstInvalidRow(rows))
            && r == Failure(InvalidConfidence(ValidPrefix(rows[FirstInvalidRow(rows)])))
  {
    LookupNonNegative(config.table, |rows|);
  }

  lemma RaisingIsInvalid(rows: seq<seq<real>>, threshold: real)
    ensures ValidRows(rows) ==> NoneRaises(rows, threshold)
  {
  }

  method ThresholdLengths(rows: seq<seq<real>>, threshold: real) returns (r: Result<seq<int>, ScheduleError>)
    requires IsProbability(threshold)
    ensures r.Failure? ==>
              exists i: nat ::
                i < |rows| && FirstRaising(rows, threshold, i) && r.error == InvalidConfidence(ValidPrefix(rows[i]))
    ensures r.Success? ==> NoneRaises(rows, threshold)
    ensures r.Success? ==>
              && |r.value| == |rows|
              && forall k :: 0 <= k < |rows| ==> 0 <= r.value[k] && IsThresholdLength(rows[k], threshold, r.value[k])
  {
    var lengths: seq<int> := [];
    for i := 0 to |rows|
      invariant |lengths| == i
      invariant forall k :: 0 <= k < i ==> !Raises(rows[k], threshold)
      invariant forall k :: 0 <= k < i ==> 0 <= lengths[k] && IsThresholdLength(rows[k], threshold, lengths[k])
    {
      var length := ConfidenceThresholdPrefixLength(rows[i], threshold);
      if length.Failure? {
        assert FirstRaising(rows, threshold, i);
        return Failure(length.error);
      }
      lengths := lengths + [length.value];
    }
    return Success(lengths);
  }

  lemma HardwareOutcome(config: Config, rows: seq<seq<real>>)
    requires Profiled(config.table) && UsesHardware(config)
    ensures var r := Schedule(Truncated(rows, config.numSpec), Curve(config.table), config.earlyStop);
            && (r.Success? <==> ValidRows(Truncated(rows, config.numSpec)))
            && (r.Success? ==> IsOutcome(config, rows, r.value))
  {
    var t, curve := Truncated(rows, config.numSpec), Curve(config.table);
    if ValidRows(t) {
      SurvivalRowsDecay(t);
      var path := Path(SurvivalRows(t), curve);
      forall k | 0 <= k < |path|
        ensures !NegativeRate(path, curve, k)
      {
        LookupNonNegative(config.table, path[k].batchTokens);
      }
      ResultIsScored(SurvivalRows(t), curve, config.earlyStop);
    }
  }

  /**
    With a table of falling rates, the exhaustive hardware scheduler reports at least the
    throughput that any mode, forced length or threshold would report on the same confidences.
   */
  lemma HardwareDominates(config: Config, other: Config, rows: seq<seq<real>>, s: ScheduleResult, o: ScheduleResult)
    requires Profiled(config.table) && RatesFall(config.table)
    requires UsesHardware(config) && !config.earlyStop
    requires other.table == config.table && other.numSpec == config.numSpec
    requires IsOutcome(config, rows, s) && IsOutcome(other, rows, o)
    ensures o.expectedTokensPerSecond <= s.expectedTokensPerSecond
  {
    var t := Truncated(rows, config.numSpec);
    SurvivalRowsDecay(t);
    LookupNonIncreasing(config.table);
    ExhaustiveIsOptimalOnNonIncreasing(SurvivalRows(t), Curve(config.table), o.lengths);
  }

  // ---- Where early stopping and exhaustive search fall short ----

  const CERTAIN: seq<seq<real>> := [[1.0, 1.0, 1.0]]

  /** A profiled table with one drop, from the first rate to the second at two tokens. */
  lemma DropRates(r1: real, r2: real)
    requires r1 >= r2 > 0.0
    ensures var table: RateTable := [(1, r1), (2, r2)];
            && Profiled(table) && RatesFall(table)
            && RateAt(table, 1) == r1 && RateAt(table, 2) == RateAt(table, 3) == RateAt(table, 4) == r2
  {
    hide RateAt, Covered;
    var table: RateTable := [(1, r1), (2, r2)];
    LookupIsProfiledEntry(table, 1, 0);
    LookupIsProfiledEntry(table, 2, 1);
    LookupIsProfiledEntry(table, 3, 1);
    LookupIsProfiledEntry(table, 4, 1);
  }

  /** On a single request with three certain tokens a drop to at most half the rate stops the planner at once. */
  lemma DropStops(r1: real, r2: real)
    requires r1 >= 2.0 * r2 > 0.0
    ensures var curve := Curve([(1, r1), (2, r2)]);
            && Positive(curve, 1, 4)
            && AllDecay(CERTAIN) && |Order(CERTAIN)| == 3
            && IsStairPath(Path(CERTAIN, curve), curve, 1, 1, 3, 1.0)
            && Plan(CERTAIN, curve, true).Success? && Plan(CERTAIN, curve, false).Success?
            && Plan(CERTAIN, curve, true).value.expectedTokensPerSecond == r1
            && Plan(CERTAIN, curve, false).value.expectedTokensPerSecond >= 4.0 * r2
            && (4.0 * r2 > r1 ==> !NeverRecovers(curve, 1, 3))
  {
    hide RateAt, Covered, StairRows, Plan, Path, Order, Decays, IsStairPath;
    DropRates(r1, r2);
    var curve := Curve([(1, r1), (2, r2)]);
    var shape: seq<nat> := [3];
    ThreePositions(shape);
    StairPath(shape, curve, 1, 3, 1.0);
    StairsStop(shape, curve, 1, 3, 1.0);
    if 4.0 * r2 > r1 {
      HalfRateSlack(r1, r2);
      assert CanStopAt(curve, 1, 1) && Recovers(curve, 1, 1, 3);
    }
  }

  lemma ThreePositions(shape: seq<nat>)
    requires shape == [3]
    ensures Capacity(shape) == 3 && StairRows(shape, 0, 3, 1.0) == CERTAIN
  {
    assert BatchRuns.Sum(shape, 1) == BatchRuns.Sum(shape, 0) + shape[0];
    var rows := StairRows(shape, 0, 3, 1.0);
    assert |rows| == 1 && |rows[0]| == 3;
    assert rows[0][0] == 1.0 && rows[0][1] == 1.0 && rows[0][2] == 1.0;
    assert rows[0] == CERTAIN[0];
  }

  lemma HalfRateSlack(r1: real, r2: real)
    requires r1 >= 2.0 * r2 > 0.0
    ensures Slack(1.0, r1, r2) == 1.0
  {
    var q := r1 / r2;
    assert q * r2 == r1;
    if q < 2.0 {
      StrictScale(q, 2.0, r2);
    }
  }

  /**
    A profiled table is a step function, so its curve can recover after a drop: on this falling table
    the default early stop returns less than the full traversal of the same three tokens.
   */
  lemma EarlyStopCanLose()
    ensures var curve := Curve([(1, 10.0), (2, 4.0)]);
            && Positive(curve, 1, 4) && !NeverRecovers(curve, 1, 3)
            && AllDecay(CERTAIN)
            && Plan(CERTAIN, curve, true).Success? && Plan(CERTAIN, curve, false).Success?
            && Plan(CERTAIN, curve, true).value.expectedTokensPerSecond == 10.0
            && Plan(CERTAIN, curve, false).value.expectedTokensPerSecond >= 16.0
  {
    hide Plan, AllDecay, NeverRecovers, Positive;
    DropStops(10.0, 4.0);
  }

  /**
    The planner stops at the first point that does not improve, which includes a tie: here the
    throughput never drops along the path, yet the early-stop result is half of the full one.
   */
  lemma EarlyStopCanLoseAtATie()
    ensures var curve := Curve([(1, 6.0), (2, 3.0)]);
            && Positive(curve, 1, 4) && !NeverRecovers(curve, 1, 3)
            && AllDecay(CERTAIN) && |Path(CERTAIN, curve)| == 4
            && NeverDrops(Path(CERTAIN, curve))
            && Plan(CERTAIN, curve, true).Success? && Plan(CERTAIN, curve, false).Success?
            && Plan(CERTAIN, curve, true).value.expectedTokensPerSecond == 6.0
            && Plan(CERTAIN, curve, false).value.expectedTokensPerSecond >= 12.0
  {
    hide Plan, Path, AllDecay, NeverRecovers, Positive, RateAt, Covered, Order;
    DropStops(6.0, 3.0);
    DropRates(6.0, 3.0);
  }

  predicate NeverDrops(path: seq<ScheduleResult>) {
    forall j, k :: 0 <= j <= k < |path| ==> path[j].expectedTokensPerSecond <= path[k].expectedTokensPerSecond
  }

  /** With rates that rise past the end of the path, a schedule with a dead token beats the exhaustive result. */
  lemma ExhaustiveCanLoseToDeadTokens()
    ensures var rows: seq<seq<real>>, curve := [[0.0]], Curve([(1, 1.0), (2, 5.0)]);
            && !DeadTokensNeverPay(curve, 1, 1)
            && AllDecay(rows) && IsSchedule(rows, [1])
            && Plan(rows, curve, false).Success?
            && Plan(rows, curve, false).value.expectedTokensPerSecond == 1.0
            && Throughput(rows, [1], curve) == 5.0
  {
    hide Plan, Throughput;
    var rows: seq<seq<real>>, table: RateTable := [[0.0]], [(1, 1.0), (2, 5.0)];
    var curve := Curve(table);
    DeadRow(rows, curve, table);
    LookupIsProfiledEntry(table, 1, 0);
    LookupIsProfiledEntry(table, 2, 1);
    assert !PaddingLoses(curve, 1, 0, 1) by {
      assert !OutrunsAt(curve, 1, 0, 0, 1);
    }
  }

  /** A single request whose only draft token is certainly rejected. */
  lemma DeadRow(rows: seq<seq<real>>, curve: StepCurve, table: RateTable)
    requires rows == [[0.0]] && Profiled(table) && curve == Curve(table)
    ensures AllDecay(rows) && IsSchedule(rows, [1]) && Plan(rows, curve, false).Success?
    ensures Plan(rows, curve, false).value.expectedTokensPerSecond == RateAt(table, 1)
    ensures Throughput(rows, [1], curve) == RateAt(table, 2)
  {
    hide Path, Score, Decays, AllDecay, IsSchedule, Order, RateAt, Covered, Throughput, Profiled;
    DeadPath(rows, curve);
    var path := Path(rows, curve);
    LookupNonNegative(table, path[0].batchTokens);
    assert !NegativeRate(path, curve, 0);
  }

  lemma DeadOrder(rows: seq<seq<real>>)
    requires rows == [[0.0]]
    ensures AllDecay(rows) && |Order(rows)| == 0 && IsSchedule(rows, Point(rows, 0)) && Tokens(Point(rows, 0), 1) == 0
  {
    hide Order, GreedyLengths;
    assert Decays(rows[0]);
    OrderIsGreedy(rows);
    assert |Order(rows)| > 0 ==> IsCandidate(rows, Order(rows)[0]);
    PathTokens(rows, Order(rows), 0);
  }

  lemma DeadPath(rows: seq<seq<real>>, curve: StepCurve)
    requires rows == [[0.0]]
    ensures AllDecay(rows) && |Order(rows)| == 0
    ensures Path(rows, curve)[0].expectedTokensPerSecond == curve(1)
    ensures IsSchedule(rows, [1]) && Throughput(rows, [1], curve) == curve(2)
  {
    hide Order, GreedyLengths;
    DeadOrder(rows);
    var none: seq<int> := [0];
    var one: seq<int> := [1];
    assert Tokens(Point(rows, 0), 1) == Point(rows, 0)[0];
    assert Point(rows, 0) == none;
    assert Mass(rows[0], 1) == 0.0;
    assert TotalMass(rows, one, 1) == 0.0;
    ZeroSchedule(rows, none, 1);
    assert Tokens(one, 1) == 1 && Tokens(none, 1) == 0;
    assert Path(rows, curve)[0] == Score(rows, none, curve);
  }
}
