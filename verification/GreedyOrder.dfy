/**
  The greedy admission order: every draft token with positive survival, best survival first.
  The lemmas show that the order respects prefixes and that each of its prefixes is the best
  schedule of its size (an exchange argument against the survival of the last admitted token).
 */
module GreedyOrder {
  import opened PrefixValue

  datatype Candidate = Candidate(survival: real, request: nat, position: nat)

  /** The ascending sort key (-survival, request, position). */
  predicate Before(a: Candidate, b: Candidate) {
    || a.survival > b.survival
    || (a.survival == b.survival && (a.request < b.request || (a.request == b.request && a.position < b.position)))
  }

  function Token(rows: seq<seq<real>>, i: nat, j: nat): Candidate
    requires i < |rows| && 1 <= j <= |rows[i]|
  {
    Candidate(rows[i][j - 1], i, j)
  }

  predicate IsCandidate(rows: seq<seq<real>>, c: Candidate) {
    && c.request < |rows|
    && 1 <= c.position <= |rows[c.request]|
    && c == Token(rows, c.request, c.position)
    && c.survival > 0.0
  }

  predicate Sorted(order: seq<Candidate>) {
    forall a, b :: 0 <= a < b < |order| ==> Before(order[a], order[b])
  }

  /** order lists exactly the positive-survival tokens, sorted by the key. */
  ghost predicate IsGreedyOrder(rows: seq<seq<real>>, order: seq<Candidate>) {
    && (forall k :: 0 <= k < |order| ==> IsCandidate(rows, order[k]))
    && (forall c :: IsCandidate(rows, c) ==> c in order)
    && Sorted(order)
  }

  // ---- The candidate list and its sort ----

  function RowCandidates(rows: seq<seq<real>>, i: nat, n: nat): seq<Candidate>
    requires i < |rows| && n <= |rows[i]|
  {
    if n == 0 then []
    else RowCandidates(rows, i, n - 1) + if rows[i][n - 1] > 0.0 then [Token(rows, i, n)] else []
  }

  function AllCandidates(rows: seq<seq<real>>, n: nat): seq<Candidate>
    requires n <= |rows|
  {
    if n == 0 then []
    else AllCandidates(rows, n - 1) + RowCandidates(rows, n - 1, |rows[n - 1]|)
  }

  function Insert(c: Candidate, sorted: seq<Candidate>): seq<Candidate> {
    if sorted == [] || Before(c, sorted[0]) then [c] + sorted
    else [sorted[0]] + Insert(c, sorted[1..])
  }

  /** Stands for list.sort under the key; the keys are distinct, so the result is the only sorted arrangement. */
  function Sort(cs: seq<Candidate>): seq<Candidate> {
    if cs == [] then [] else Insert(cs[0], Sort(cs[1..]))
  }

  function Order(rows: seq<seq<real>>): seq<Candidate> {
    Sort(AllCandidates(rows, |rows|))
  }

  predicate Distinct(cs: seq<Candidate>) {
    forall a, b :: 0 <= a < b < |cs| ==> cs[a] != cs[b]
  }

  lemma {:induction false} RowCandidatesAre(rows: seq<seq<real>>, i: nat, n: nat)
    requires i < |rows| && n <= |rows[i]|
    ensures forall c :: c in RowCandidates(rows, i, n) <==> IsCandidate(rows, c) && c.request == i && c.position <= n
    ensures Distinct(RowCandidates(rows, i, n))
  {
    if n > 0 {
      RowCandidatesAre(rows, i, n - 1);
    }
  }

  lemma {:induction false} AllCandidatesAre(rows: seq<seq<real>>, n: nat)
    requires n <= |rows|
    ensures forall c :: c in AllCandidates(rows, n) <==> IsCandidate(rows, c) && c.request < n
    ensures Distinct(AllCandidates(rows, n))
  {
    if n > 0 {
      AllCandidatesAre(rows, n - 1);
      RowCandidatesAre(rows, n - 1, |rows[n - 1]|);
    }
  }

  lemma {:induction false} InsertSorts(c: Candidate, sorted: seq<Candidate>)
    requires Sorted(sorted) && c !in sorted
    ensures Sorted(Insert(c, sorted))
    ensures forall x :: x in Insert(c, sorted) <==> x == c || x in sorted
  {
    if sorted != [] {
      assert forall x :: x in sorted <==> x == sorted[0] || x in sorted[1..];
      if !Before(c, sorted[0]) {
        assert sorted[0] in sorted;
        InsertSorts(c, sorted[1..]);
        assert forall x :: x in Insert(c, sorted[1..]) ==> Before(sorted[0], x);
      }
    }
  }

  lemma {:induction false} SortSorts(cs: seq<Candidate>)
    requires Distinct(cs)
    ensures Sorted(Sort(cs))
    ensures forall x :: x in Sort(cs) <==> x in cs
  {
    if cs != [] {
      assert forall x :: x in cs <==> x == cs[0] || x in cs[1..];
      SortSorts(cs[1..]);
      InsertSorts(cs[0], Sort(cs[1..]));
    }
  }

  lemma OrderIsGreedy(rows: seq<seq<real>>)
    ensures IsGreedyOrder(rows, Order(rows))
  {
    AllCandidatesAre(rows, |rows|);
    SortSorts(AllCandidates(rows, |rows|));
    forall k | 0 <= k < |Order(rows)|
      ensures IsCandidate(rows, Order(rows)[k])
    {
      assert Order(rows)[k] in Order(rows);
    }
  }

  // ---- The path of schedules ----

  /** The lengths after the first k candidates, with the guard of the admission loop. */
  function GreedyLengths(n: nat, order: seq<Candidate>, k: nat): (v: seq<int>)
    requires k <= |order|
    ensures |v| == n
  {
    if k == 0 then seq(n, _ => 0)
    else
      var v := GreedyLengths(n, order, k - 1);
      var c := order[k - 1];
      if c.request < n && c.position == v[c.request] + 1 then v[c.request := c.position] else v
  }

  /** Token (i, j) is among the first k candidates exactly when j is within the length of request i. */
  ghost predicate Admitted(rows: seq<seq<real>>, order: seq<Candidate>, k: nat, v: seq<int>)
    requires k <= |order|
  {
    && IsSchedule(rows, v)
    && forall i, j :: 0 <= i < |rows| && 1 <= j <= |rows[i]| ==> (Token(rows, i, j) in order[..k] <==> j <= v[i])
  }

  /** One step of the path: the guard always holds, and the step admits exactly the next candidate. */
  lemma StepAdmits(rows: seq<seq<real>>, order: seq<Candidate>, k: nat, v: seq<int>)
    requires AllDecay(rows) && IsGreedyOrder(rows, order) && k < |order| && Admitted(rows, order, k, v)
    ensures IsCandidate(rows, order[k])
    ensures order[k].position == v[order[k].request] + 1
    ensures Admitted(rows, order, k + 1, v[order[k].request := order[k].position])
  {
    var c := order[k];
    var i, j := c.request, c.position;
    assert c == Token(rows, i, j);
    assert c !in order[..k];
    var d := Token(rows, i, v[i] + 1);
    assert IsCandidate(rows, d);
    assert d !in order[..k];
    var x :| 0 <= x < |order| && order[x] == d;
    assert x == k by {
      assert x >= k;
      assert !Before(c, d);
    }
    assert order[..k + 1] == order[..k] + [c];
  }

  lemma {:induction false} PathInvariant(rows: seq<seq<real>>, order: seq<Candidate>, k: nat)
    requires AllDecay(rows) && IsGreedyOrder(rows, order) && k <= |order|
    ensures Admitted(rows, order, k, GreedyLengths(|rows|, order, k))
  {
    if k > 0 {
      PathInvariant(rows, order, k - 1);
      var v := GreedyLengths(|rows|, order, k - 1);
      StepAdmits(rows, order, k - 1, v);
      assert GreedyLengths(|rows|, order, k) == v[order[k - 1].request := order[k - 1].position];
    }
  }

  /**
    Tokens are admitted by survival, and at equal survival in the order of the requests: a schedule on the path that
    holds token (m, q) holds every token that comes before it.
   */
  lemma PathAdmitsInOrder(rows: seq<seq<real>>, order: seq<Candidate>, k: nat, i: nat, p: nat, m: nat, q: nat)
    requires AllDecay(rows) && IsGreedyOrder(rows, order) && k <= |order|
    requires i < |rows| && 1 <= p <= |rows[i]| && m < |rows| && 1 <= q <= |rows[m]|
    requires rows[i][p - 1] > 0.0
    requires rows[i][p - 1] > rows[m][q - 1] || (rows[i][p - 1] == rows[m][q - 1] && (i < m || (i == m && p <= q)))
    ensures q <= GreedyLengths(|rows|, order, k)[m] ==> p <= GreedyLengths(|rows|, order, k)[i]
  {
    PathInvariant(rows, order, k);
    var a, b := Token(rows, i, p), Token(rows, m, q);
    if b in order[..k] {
      assert IsCandidate(rows, a);
      var x :| 0 <= x < k && order[x] == b;
      var y :| 0 <= y < |order| && order[y] == a;
      assert !Before(b, a);
      assert order[..k][y] == a;
    }
  }

  /** The greedy path visits every request's positions in order 1, 2, 3, ...: no candidate is ever skipped. */
  lemma PathNeverSkips(rows: seq<seq<real>>, order: seq<Candidate>, k: nat)
    requires AllDecay(rows) && IsGreedyOrder(rows, order) && k < |order|
    ensures IsCandidate(rows, order[k])
    ensures order[k].position == GreedyLengths(|rows|, order, k)[order[k].request] + 1
    ensures GreedyLengths(|rows|, order, k + 1)
            == GreedyLengths(|rows|, order, k)[order[k].request := order[k].position]
  {
    PathInvariant(rows, order, k);
    StepAdmits(rows, order, k, GreedyLengths(|rows|, order, k));
  }

  /** What one admission adds to the totals of the path. */
  lemma PathStep(rows: seq<seq<real>>, order: seq<Candidate>, k: nat)
    requires AllDecay(rows) && IsGreedyOrder(rows, order) && k < |order|
    ensures IsSchedule(rows, GreedyLengths(|rows|, order, k)) && IsSchedule(rows, GreedyLengths(|rows|, order, k + 1))
    ensures Tokens(GreedyLengths(|rows|, order, k + 1), |rows|) == Tokens(GreedyLengths(|rows|, order, k), |rows|) + 1
    ensures Expected(rows, GreedyLengths(|rows|, order, k + 1))
            == Expected(rows, GreedyLengths(|rows|, order, k)) + order[k].survival
  {
    PathInvariant(rows, order, k);
    PathNeverSkips(rows, order, k);
    var v, c := GreedyLengths(|rows|, order, k), order[k];
    TokensUpdate(v, c.request, c.position, |rows|);
    MassUpdate(rows, v, c.request, c.position, |rows|);
  }

  /** After k candidates exactly k draft tokens are scheduled. */
  lemma {:induction false} PathTokens(rows: seq<seq<real>>, order: seq<Candidate>, k: nat)
    requires AllDecay(rows) && IsGreedyOrder(rows, order) && k <= |order|
    ensures IsSchedule(rows, GreedyLengths(|rows|, order, k))
    ensures Tokens(GreedyLengths(|rows|, order, k), |rows|) == k
  {
    PathInvariant(rows, order, k);
    if k == 0 {
      ZeroSchedule(rows, GreedyLengths(|rows|, order, 0), |rows|);
    } else {
      PathTokens(rows, order, k - 1);
      PathStep(rows, order, k - 1);
    }
  }

  // ---- Every prefix of the path is the best schedule of its size ----

  /** g is the cut of every row at survival price: tokens inside are worth at least price, tokens outside at most. */
  predicate CutAt(row: seq<real>, g: nat, price: real) {
    && g <= |row|
    && (forall j :: 0 <= j < g ==> row[j] >= price)
    && (forall j :: g <= j < |row| ==> row[j] <= price)
  }

  lemma Distribute(price: real, a: int, b: int)
    ensures price * (a + b) as real == price * a as real + price * b as real
  {
    assert (a + b) as real == a as real + b as real;
  }

  lemma NetOfOne(mass: real, x: real, price: real, n: int)
    ensures x >= price ==> Net(mass, price, n) <= Net(mass + x, price, n + 1)
    ensures x <= price ==> Net(mass + x, price, n + 1) <= Net(mass, price, n)
  {
    Distribute(price, n, 1);
  }

  lemma {:induction false} CutIsBestInRow(row: seq<real>, g: nat, v: nat, price: real)
    requires CutAt(row, g, price) && v <= |row|
    ensures Net(Mass(row, v), price, v) <= Net(Mass(row, g), price, g)
    decreases if v < g then g - v else v - g
  {
    if v < g {
      CutIsBestInRow(row, g, v + 1, price);
      NetOfOne(Mass(row, v), row[v], price, v);
    } else if v > g {
      CutIsBestInRow(row, g, v - 1, price);
      NetOfOne(Mass(row, v - 1), row[v - 1], price, v - 1);
    }
  }

  /** Probability mass of a schedule net of a price for each of its tokens. */
  function Net(mass: real, price: real, tokens: int): real {
    mass - price * tokens as real
  }

  lemma NetAdds(mv: real, mg: real, tv: int, tg: int, v: real, g: real, nv: int, ng: int, price: real)
    requires Net(mv, price, tv) <= Net(mg, price, tg) && Net(v, price, nv) <= Net(g, price, ng)
    ensures Net(mv + v, price, tv + nv) <= Net(mg + g, price, tg + ng)
  {
    Distribute(price, tv, nv);
    Distribute(price, tg, ng);
  }

  lemma {:induction false} CutIsBest(rows: seq<seq<real>>, g: seq<int>, v: seq<int>, price: real, n: nat)
    requires IsSchedule(rows, g) && IsSchedule(rows, v) && n <= |rows|
    requires forall i :: 0 <= i < |rows| ==> CutAt(rows[i], g[i], price)
    ensures Net(TotalMass(rows, v, n), price, Tokens(v, n)) <= Net(TotalMass(rows, g, n), price, Tokens(g, n))
  {
    if n > 0 {
      CutIsBest(rows, g, v, price, n - 1);
      CutIsBestInRow(rows[n - 1], g[n - 1], v[n - 1], price);
      hide Net, Mass, CutAt;
      NetAdds(TotalMass(rows, v, n - 1), TotalMass(rows, g, n - 1), Tokens(v, n - 1), Tokens(g, n - 1),
              Mass(rows[n - 1], v[n - 1]), Mass(rows[n - 1], g[n - 1]), v[n - 1], g[n - 1], price);
    }
  }

  lemma CutBeatsSameSize(rows: seq<seq<real>>, g: seq<int>, v: seq<int>, price: real)
    requires IsSchedule(rows, g) && IsSchedule(rows, v)
    requires forall i :: 0 <= i < |rows| ==> CutAt(rows[i], g[i], price)
    requires price == 0.0 || Tokens(v, |rows|) == Tokens(g, |rows|)
    ensures Expected(rows, v) <= Expected(rows, g)
  {
    CutIsBest(rows, g, v, price, |rows|);
    SameNet(TotalMass(rows, v, |rows|), TotalMass(rows, g, |rows|), price, Tokens(v, |rows|), Tokens(g, |rows|));
  }

  lemma SameNet(a: real, b: real, price: real, m: int, n: int)
    requires (price == 0.0 || m == n) && Net(a, price, m) <= Net(b, price, n)
    ensures a <= b
  {
    assert price * m as real == price * n as real;
  }

  /** The survival of the last admitted token prices the greedy schedule. */
  lemma PathCut(rows: seq<seq<real>>, order: seq<Candidate>, k: nat, i: nat)
    requires AllDecay(rows) && IsGreedyOrder(rows, order) && 0 < k <= |order| && i < |rows|
    ensures IsSchedule(rows, GreedyLengths(|rows|, order, k))
    ensures CutAt(rows[i], GreedyLengths(|rows|, order, k)[i], order[k - 1].survival)
  {
    PathInvariant(rows, order, k);
    var v, price := GreedyLengths(|rows|, order, k), order[k - 1].survival;
    forall j | 0 <= j < v[i]
      ensures rows[i][j] >= price
    {
      assert Token(rows, i, j + 1) in order[..k];
    }
    forall j | v[i] <= j < |rows[i]|
      ensures rows[i][j] <= price
    {
      assert Token(rows, i, j + 1) !in order[..k];
      assert IsProbability(rows[i][j]);
      if rows[i][j] > 0.0 {
        assert IsCandidate(rows, Token(rows, i, j + 1));
        var x :| 0 <= x < |order| && order[x] == Token(rows, i, j + 1);
        assert x >= k;
      }
    }
  }

  /** At the end of the path every positive token is in and only zero-survival tokens are out. */
  lemma FullPathCut(rows: seq<seq<real>>, order: seq<Candidate>, i: nat)
    requires AllDecay(rows) && IsGreedyOrder(rows, order) && i < |rows|
    ensures IsSchedule(rows, GreedyLengths(|rows|, order, |order|))
    ensures CutAt(rows[i], GreedyLengths(|rows|, order, |order|)[i], 0.0)
    ensures forall j :: 0 <= j < |rows[i]| ==> (rows[i][j] > 0.0 <==> j < GreedyLengths(|rows|, order, |order|)[i])
  {
    PathInvariant(rows, order, |order|);
    assert order[..|order|] == order;
    forall j | 0 <= j < |rows[i]|
      ensures rows[i][j] > 0.0 <==> j < GreedyLengths(|rows|, order, |order|)[i]
      ensures rows[i][j] >= 0.0
    {
      assert IsProbability(rows[i][j]);
      assert Token(rows, i, j + 1) in order <==> IsCandidate(rows, Token(rows, i, j + 1));
    }
  }

  /**
    Among all schedules that verify k draft tokens, the k-th point of the greedy path has the
    largest expected number of accepted tokens.
   */
  lemma PathIsBestOfItsSize(rows: seq<seq<real>>, order: seq<Candidate>, v: seq<int>)
    requires AllDecay(rows) && IsGreedyOrder(rows, order) && IsSchedule(rows, v)
    requires Tokens(v, |rows|) <= |order|
    ensures Tokens(v, |rows|) >= 0
    ensures IsSchedule(rows, GreedyLengths(|rows|, order, Tokens(v, |rows|)))
    ensures Expected(rows, v) <= Expected(rows, GreedyLengths(|rows|, order, Tokens(v, |rows|)))
  {
    NoTokens(v, |rows|);
    var k := Tokens(v, |rows|);
    PathTokens(rows, order, k);
    var g := GreedyLengths(|rows|, order, k);
    if k == 0 {
      ZeroSchedule(rows, v, |rows|);
      ZeroSchedule(rows, g, |rows|);
    } else {
      var price := order[k - 1].survival;
      forall i | 0 <= i < |rows|
        ensures CutAt(rows[i], g[i], price)
      {
        PathCut(rows, order, k, i);
      }
      CutBeatsSameSize(rows, g, v, price);
    }
  }

  /** No schedule of any size beats the whole path's expected number of accepted tokens. */
  lemma FullPathIsBest(rows: seq<seq<real>>, order: seq<Candidate>, v: seq<int>)
    requires AllDecay(rows) && IsGreedyOrder(rows, order) && IsSchedule(rows, v)
    ensures IsSchedule(rows, GreedyLengths(|rows|, order, |order|))
    ensures Expected(rows, v) <= Expected(rows, GreedyLengths(|rows|, order, |order|))
  {
    PathInvariant(rows, order, |order|);
    var g := GreedyLengths(|rows|, order, |order|);
    forall i | 0 <= i < |rows|
      ensures CutAt(rows[i], g[i], 0.0)
    {
      FullPathCut(rows, order, i);
    }
    CutBeatsSameSize(rows, g, v, 0.0);
  }
}
