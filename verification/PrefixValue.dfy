/**
  Prefix survival of draft tokens, and the value of a prefix-length schedule.
  A confidence row holds the conditional acceptance probability of each draft position of one
  request; a survival row holds, for each position, the probability that the draft is accepted
  up to and including it.
 */
module PrefixValue {
  import opened Wrappers

  datatype ScheduleError =
    | InvalidThreshold
    | InvalidConfidence(index: nat)
    | CountMismatch
    | InvalidLength(request: nat)
    | NegativeStepRate

  datatype ScheduleResult = ScheduleResult(
    lengths: seq<int>,
    expectedAcceptedTokens: real,
    batchTokens: int,
    expectedTokensPerSecond: real)

  type StepCurve = int -> real

  // ---- cumulative_survival ----

  predicate IsProbability(x: real) {
    0.0 <= x <= 1.0
  }

  predicate ValidRow(row: seq<real>) {
    forall j :: 0 <= j < |row| ==> IsProbability(row[j])
  }

  predicate ValidRows(rows: seq<seq<real>>) {
    forall i :: 0 <= i < |rows| ==> ValidRow(rows[i])
  }

  /** Number of leading confidences that are probabilities: the index of the first bad one, if any. */
  function ValidPrefix(row: seq<real>): (n: nat)
    ensures n <= |row| && forall j :: 0 <= j < n ==> IsProbability(row[j])
    ensures n < |row| ==> !IsProbability(row[n])
  {
    if row == [] || !IsProbability(row[0]) then 0 else 1 + ValidPrefix(row[1..])
  }

  /** Probability that the first n draft tokens of a row are all accepted. */
  function Survival(row: seq<real>, n: nat): real
    requires n <= |row|
  {
    if n == 0 then 1.0 else Survival(row, n - 1) * row[n - 1]
  }

  function Survivals(row: seq<real>): (s: seq<real>)
    ensures |s| == |row|
    ensures forall j :: 0 <= j < |s| ==> s[j] == Survival(row, j + 1)
  {
    seq(|row|, j requires 0 <= j < |row| => Survival(row, j + 1))
  }

  function SurvivalRows(rows: seq<seq<real>>): (s: seq<seq<real>>)
    ensures |s| == |rows|
    ensures forall i :: 0 <= i < |s| ==> s[i] == Survivals(rows[i])
  {
    seq(|rows|, i requires 0 <= i < |rows| => Survivals(rows[i]))
  }

  method CumulativeSurvival(confidences: seq<real>) returns (r: Result<seq<real>, ScheduleError>)
    ensures r.Success? <==> ValidRow(confidences)
    ensures r.Success? ==> r.value == Survivals(confidences)
    ensures r.Failure? ==> r.error == InvalidConfidence(ValidPrefix(confidences))
    ensures r.Success? <==> forall j :: 0 <= j < |confidences| ==> 0.0 <= confidences[j] <= 1.0
    ensures r.Success? ==> |r.value| == |confidences|
    ensures r.Success? ==>
              forall j :: 0 <= j < |confidences| ==>
                r.value[j] == if j == 0 then confidences[0] else r.value[j - 1] * confidences[j]
    ensures r.Failure? ==>
              exists j :: 0 <= j < |confidences| && r.error == InvalidConfidence(j)
                          && !(0.0 <= confidences[j] <= 1.0)
                          && forall k :: 0 <= k < j ==> 0.0 <= confidences[k] <= 1.0
  {
    var survivals: seq<real> := [];
    var survival := 1.0;
    for index := 0 to |confidences|
      invariant ValidPrefix(confidences) >= index
      invariant survival == Survival(confidences, index)
      invariant survivals == Survivals(confidences)[..index]
    {
      if !IsProbability(confidences[index]) {
        return Failure(InvalidConfidence(index));
      }
      survival := survival * confidences[index];
      survivals := survivals + [survival];
    }
    return Success(survivals);
  }

  lemma ProbabilityScales(p: real, x: real)
    requires 0.0 <= p && IsProbability(x)
    ensures 0.0 <= p * x <= p
  {
    assert p - p * x == p * (1.0 - x);
  }

  lemma {:induction false} SurvivalBounds(row: seq<real>, n: nat)
    requires ValidRow(row) && n <= |row|
    ensures IsProbability(Survival(row, n))
    ensures n > 0 ==> Survival(row, n) <= Survival(row, n - 1)
  {
    if n > 0 {
      SurvivalBounds(row, n - 1);
      var p, x := Survival(row, n - 1), row[n - 1];
      assert Survival(row, n) == p * x;
      ProbabilityScales(p, x);
    }
  }

  lemma {:induction false} SurvivalAntitone(row: seq<real>, m: nat, n: nat)
    requires ValidRow(row) && m <= n <= |row|
    ensures Survival(row, n) <= Survival(row, m)
    decreases n - m
  {
    if m < n {
      SurvivalAntitone(row, m + 1, n);
      SurvivalBounds(row, m + 1);
    }
  }

  /** A survival row: probabilities that never grow along the draft. */
  predicate Decays(s: seq<real>) {
    && (forall j :: 0 <= j < |s| ==> IsProbability(s[j]))
    && (forall j, k :: 0 <= j <= k < |s| ==> s[k] <= s[j])
  }

  predicate AllDecay(rows: seq<seq<real>>) {
    forall i :: 0 <= i < |rows| ==> Decays(rows[i])
  }

  lemma SurvivalsDecay(row: seq<real>)
    requires ValidRow(row)
    ensures Decays(Survivals(row))
  {
    forall j, k | 0 <= j <= k < |row|
      ensures Survivals(row)[k] <= Survivals(row)[j] && IsProbability(Survivals(row)[k])
    {
      SurvivalBounds(row, k + 1);
      SurvivalAntitone(row, j + 1, k + 1);
    }
    forall k | 0 <= k < |row|
      ensures IsProbability(Survivals(row)[k])
    {
      SurvivalBounds(row, k + 1);
    }
  }

  lemma SurvivalRowsDecay(rows: seq<seq<real>>)
    requires ValidRows(rows)
    ensures AllDecay(SurvivalRows(rows))
  {
    forall i | 0 <= i < |rows|
      ensures Decays(SurvivalRows(rows)[i])
    {
      SurvivalsDecay(rows[i]);
    }
  }

  /** Confidences with a given survival row: the ratio of each survival to the one before it. */
  function Ratio(s: seq<real>, j: nat): real
    requires j < |s|
  {
    var before := if j == 0 then 1.0 else s[j - 1];
    if before == 0.0 then 0.0 else s[j] / before
  }

  function ConfidencesOf(s: seq<real>): (row: seq<real>)
    ensures |row| == |s| && forall j :: 0 <= j < |s| ==> row[j] == Ratio(s, j)
  {
    seq(|s|, j requires 0 <= j < |s| => Ratio(s, j))
  }

  lemma RatioScales(before: real, x: real)
    requires 0.0 <= x <= before
    ensures var r := if before == 0.0 then 0.0 else x / before; IsProbability(r) && before * r == x
  {
    if before > 0.0 {
      var r := x / before;
      assert before * r == x;
    }
  }

  lemma {:induction false} SurvivalOfRatios(s: seq<real>, n: nat)
    requires Decays(s) && n <= |s|
    ensures Survival(ConfidencesOf(s), n) == if n == 0 then 1.0 else s[n - 1]
    ensures forall j :: 0 <= j < n ==> IsProbability(Ratio(s, j))
  {
    hide Ratio;
    if n > 0 {
      SurvivalOfRatios(s, n - 1);
      RatioIsStep(s, n - 1);
    }
  }

  lemma RatioIsStep(s: seq<real>, j: nat)
    requires Decays(s) && j < |s|
    ensures IsProbability(Ratio(s, j)) && (if j == 0 then 1.0 else s[j - 1]) * Ratio(s, j) == s[j]
  {
    assert IsProbability(s[j]);
    if j > 0 {
      assert s[j] <= s[j - 1];
    }
    RatioScales(if j == 0 then 1.0 else s[j - 1], s[j]);
  }

  /** Every decaying row is the survival row of some confidences. */
  lemma EveryDecayIsReached(rows: seq<seq<real>>) returns (confidences: seq<seq<real>>)
    requires AllDecay(rows)
    ensures ValidRows(confidences) && SurvivalRows(confidences) == rows
    ensures |confidences| == |rows| && forall i :: 0 <= i < |rows| ==> |confidences[i]| == |rows[i]|
  {
    hide Decays, Survival;
    confidences := seq(|rows|, i requires 0 <= i < |rows| => ConfidencesOf(rows[i]));
    forall i | 0 <= i < |rows|
      ensures ValidRow(confidences[i]) && Survivals(confidences[i]) == rows[i]
    {
      RowIsReached(rows[i]);
    }
  }

  lemma RowIsReached(s: seq<real>)
    requires Decays(s)
    ensures ValidRow(ConfidencesOf(s)) && Survivals(ConfidencesOf(s)) == s
  {
    hide Decays, Ratio, Survival;
    SurvivalOfRatios(s, |s|);
    forall j | 0 <= j < |s|
      ensures Survivals(ConfidencesOf(s))[j] == s[j]
    {
      SurvivalOfRatios(s, j + 1);
    }
  }

  // ---- The value of a schedule over survival rows ----

  /** Expected number of accepted draft tokens when the first n tokens of a survival row are verified. */
  function Mass(s: seq<real>, n: nat): real
    requires n <= |s|
  {
    if n == 0 then 0.0 else Mass(s, n - 1) + s[n - 1]
  }

  /** A schedule picks one prefix length per request. */
  predicate IsSchedule(rows: seq<seq<real>>, v: seq<int>) {
    |v| == |rows| && forall i :: 0 <= i < |v| ==> 0 <= v[i] <= |rows[i]|
  }

  function TotalMass(rows: seq<seq<real>>, v: seq<int>, n: nat): real
    requires IsSchedule(rows, v) && n <= |rows|
  {
    if n == 0 then 0.0 else TotalMass(rows, v, n - 1) + Mass(rows[n - 1], v[n - 1])
  }

  function Tokens(v: seq<int>, n: nat): int
    requires n <= |v|
  {
    if n == 0 then 0 else Tokens(v, n - 1) + v[n - 1]
  }

  /** Expected tokens of a step: one bonus token per request plus the accepted draft tokens. */
  function Expected(rows: seq<seq<real>>, v: seq<int>): real
    requires IsSchedule(rows, v)
  {
    |rows| as real + TotalMass(rows, v, |rows|)
  }

  /** Expected tokens per second of a schedule, at the profiled step rate of its batch size. */
  function Throughput(rows: seq<seq<real>>, v: seq<int>, curve: StepCurve): real
    requires IsSchedule(rows, v)
  {
    Expected(rows, v) * curve(|rows| + Tokens(v, |v|))
  }

  function Score(rows: seq<seq<real>>, v: seq<int>, curve: StepCurve): ScheduleResult
    requires IsSchedule(rows, v)
  {
    ScheduleResult(v, Expected(rows, v), |rows| + Tokens(v, |v|), Throughput(rows, v, curve))
  }

  /** The empty schedule: one certain token per request. */
  lemma ScoreOfNothing(rows: seq<seq<real>>, curve: StepCurve)
    ensures var v: seq<int> := seq(|rows|, _ => 0);
            && IsSchedule(rows, v)
            && Score(rows, v, curve) == ScheduleResult(v, |rows| as real, |rows|, |rows| as real * curve(|rows|))
  {
    var v: seq<int> := seq(|rows|, _ => 0);
    ZeroSchedule(rows, v, |rows|);
  }

  /** One more token of request i: its survival, one batch token, and the throughput at the new batch size. */
  lemma ScoreOfOneMore(rows: seq<seq<real>>, v: seq<int>, i: nat, curve: StepCurve)
    requires IsSchedule(rows, v) && i < |rows| && v[i] < |rows[i]|
    ensures IsSchedule(rows, v[i := v[i] + 1])
    ensures var a, b := Score(rows, v, curve), Score(rows, v[i := v[i] + 1], curve);
            && b.expectedAcceptedTokens == a.expectedAcceptedTokens + rows[i][v[i]]
            && b.batchTokens == a.batchTokens + 1
            && b.expectedTokensPerSecond == b.expectedAcceptedTokens * curve(b.batchTokens)
            && b.lengths == v[i := v[i] + 1]
  {
    hide TotalMass, Tokens;
    MassUpdate(rows, v, i, v[i] + 1, |rows|);
    TokensUpdate(v, i, v[i] + 1, |v|);
  }

  lemma {:induction false} TokensUpdate(v: seq<int>, i: nat, x: int, n: nat)
    requires i < |v| && n <= |v|
    ensures Tokens(v[i := x], n) == Tokens(v, n) + if i < n then x - v[i] else 0
  {
    if n > 0 {
      TokensUpdate(v, i, x, n - 1);
    }
  }

  lemma {:induction false} MassUpdate(rows: seq<seq<real>>, v: seq<int>, i: nat, x: int, n: nat)
    requires IsSchedule(rows, v) && i < |v| && 0 <= x <= |rows[i]| && n <= |v|
    ensures IsSchedule(rows, v[i := x])
    ensures TotalMass(rows, v[i := x], n)
            == TotalMass(rows, v, n) + if i < n then Mass(rows[i], x) - Mass(rows[i], v[i]) else 0.0
  {
    if n > 0 {
      MassUpdate(rows, v, i, x, n - 1);
    }
  }

  lemma {:induction false} MassMonotone(s: seq<real>, m: nat, n: nat)
    requires Decays(s) && m <= n <= |s|
    ensures Mass(s, m) <= Mass(s, n)
    decreases n - m
  {
    if m < n {
      assert IsProbability(s[m]);
      MassMonotone(s, m + 1, n);
    }
  }

  lemma {:induction false} TotalMassMonotone(rows: seq<seq<real>>, v: seq<int>, w: seq<int>, n: nat)
    requires AllDecay(rows) && IsSchedule(rows, v) && IsSchedule(rows, w) && n <= |rows|
    requires forall i :: 0 <= i < |v| ==> v[i] <= w[i]
    ensures TotalMass(rows, v, n) <= TotalMass(rows, w, n)
  {
    if n > 0 {
      TotalMassMonotone(rows, v, w, n - 1);
      MassMonotone(rows[n - 1], v[n - 1], w[n - 1]);
    }
  }

  lemma {:induction false} TotalMassNonNegative(rows: seq<seq<real>>, v: seq<int>, n: nat)
    requires AllDecay(rows) && IsSchedule(rows, v) && n <= |rows|
    ensures TotalMass(rows, v, n) >= 0.0
  {
    if n > 0 {
      TotalMassNonNegative(rows, v, n - 1);
      MassMonotone(rows[n - 1], 0, v[n - 1]);
    }
  }

  lemma {:induction false} ZeroSchedule(rows: seq<seq<real>>, v: seq<int>, n: nat)
    requires IsSchedule(rows, v) && n <= |rows| && forall i :: 0 <= i < |v| ==> v[i] == 0
    ensures Tokens(v, n) == 0 && TotalMass(rows, v, n) == 0.0
  {
    if n > 0 {
      ZeroSchedule(rows, v, n - 1);
    }
  }

  lemma {:induction false} NoTokens(v: seq<int>, n: nat)
    requires n <= |v| && (forall i :: 0 <= i < |v| ==> v[i] >= 0)
    ensures Tokens(v, n) >= 0
    ensures Tokens(v, n) == 0 ==> forall i :: 0 <= i < n ==> v[i] == 0
  {
    if n > 0 {
      NoTokens(v, n - 1);
    }
  }

  lemma {:induction false} TokensMonotone(v: seq<int>, w: seq<int>, n: nat)
    requires n <= |v| == |w| && forall i :: 0 <= i < |v| ==> v[i] <= w[i]
    ensures Tokens(v, n) <= Tokens(w, n)
  {
    if n > 0 {
      TokensMonotone(v, w, n - 1);
    }
  }
}
