/**
 * The deterministic part of `simulate` (src/ab_simulator.py): baseline
 * return probabilities, top-k targeting, the per-slice order-value
 * fallback, the clipped treatment model, the closed-form expectations and
 * ROI, the nested (target, discount) sweep and the final ranking. The Monte
 * Carlo interval is not modelled; `TrialDelta` gives the profit delta of one
 * trial for fixed outcome vectors.
 */
module Simulator {
  import opened Results
  import opened Text
  import opened Numeric
  import opened Ordering
  import opened Loaders

  /** A customer after the simulator's preprocessing. */
  datatype Prepared = Prepared(churnProb: real, p0: real, avgOrderValue: real)

  /** `(1 - churn_prob).clip(1e-6, 1 - 1e-6)`. */
  function BaselineReturn(churnProb: real): (p0: real)
    ensures Eps <= p0 <= 1.0 - Eps
    ensures Eps <= 1.0 - churnProb <= 1.0 - Eps ==> p0 == 1.0 - churnProb
    ensures 1.0 - churnProb < Eps ==> p0 == Eps
    ensures 1.0 - churnProb > 1.0 - Eps ==> p0 == 1.0 - Eps
  {
    Clip(1.0 - churnProb, Eps, 1.0 - Eps)
  }

  /** `fillna(0)` on one order value. */
  function FillNa(v: Stat): real {
    match v
    case Finite(x) => x
    case NaN => 0.0
  }

  /** Adds `p0` to every customer and replaces a missing order value by 0. */
  function Prepare(df: seq<Customer>): (r: seq<Prepared>)
    ensures |r| == |df|
    ensures forall i :: 0 <= i < |r| ==> r[i].churnProb == df[i].churnProb && Eps <= r[i].p0 <= 1.0 - Eps
    ensures forall i :: 0 <= i < |r| ==> r[i].p0 == BaselineReturn(df[i].churnProb)
    ensures forall i :: 0 <= i < |r| ==> df[i].avgOrderValue.NaN? ==> r[i].avgOrderValue == 0.0
    ensures forall i :: 0 <= i < |r| ==> df[i].avgOrderValue.Finite? ==> r[i].avgOrderValue == df[i].avgOrderValue.value
  {
    seq(|df|, i requires 0 <= i < |df| =>
      Prepared(df[i].churnProb, BaselineReturn(df[i].churnProb), FillNa(df[i].avgOrderValue)))
  }

  // ---------------------------------------------------------------------------
  // Targeting
  // ---------------------------------------------------------------------------

  function ChurnOf(c: Prepared): real { c.churnProb }

  /** `k = int(np.ceil(tp * n))`: the least integer not below `tp·n`. */
  function TargetCount(tp: real, n: nat): (k: int)
    ensures (k - 1) as real < tp * n as real <= k as real
    ensures tp >= 0.0 ==> k >= 0
    ensures 0.0 < tp <= 1.0 && n > 0 ==> 1 <= k <= n
  {
    var k := Ceil(tp * n as real);
    assert tp <= 1.0 ==> tp * n as real <= n as real;
    assert 0.0 < tp && n > 0 ==> tp * n as real > 0.0;
    k
  }

  lemma TargetCountExamples()
    ensures TargetCount(0.25, 1000) == 250
    ensures TargetCount(0.5, 3) == 2
    ensures TargetCount(0.1, 30) == 3
  {
  }

  /** `df.sort_values("churn_prob", ascending=False)`. */
  function Ranked(df: seq<Prepared>): (r: seq<Prepared>)
    ensures SortedDesc(r, ChurnOf)
    ensures multiset(r) == multiset(df)
    ensures |r| == |df|
  {
    SortDesc(df, ChurnOf)
  }

  /** Cutting a descending list splits it into a high part and a low part. */
  lemma CutSorted(ranked: seq<Prepared>, m: nat)
    requires m <= |ranked|
    requires SortedDesc(ranked, ChurnOf)
    ensures multiset(ranked[..m]) + multiset(ranked[m..]) == multiset(ranked)
    ensures forall a, b :: a in ranked[..m] && b in ranked[m..] ==> a.churnProb >= b.churnProb
  {
    assert ranked == ranked[..m] + ranked[m..];
    forall a, b | a in ranked[..m] && b in ranked[m..]
      ensures a.churnProb >= b.churnProb
    {
      var i :| 0 <= i < m && ranked[i] == a;
      var j :| 0 <= j < |ranked[m..]| && ranked[m..][j] == b;
      assert ranked[m + j] == b;
      assert ChurnOf(ranked[i]) >= ChurnOf(ranked[m + j]);
    }
  }

  /** `df.sort_values("churn_prob", ascending=False).head(k)`: the slice has
      `min(k, n)` customers for a non-negative target fraction, is drawn from
      the table, and no customer left out has a higher churn probability than
      one selected. Ties at the cut are resolved by the sort. */
  function TargetSlice(df: seq<Prepared>, tp: real): (s: seq<Prepared>)
    ensures |s| == HeadCount(TargetCount(tp, |df|), |df|)
    ensures tp >= 0.0 ==> |s| == Min(TargetCount(tp, |df|), |df|)
    ensures multiset(s) <= multiset(df)
    ensures forall a, b :: a in s && b in multiset(df) - multiset(s) ==> a.churnProb >= b.churnProb
  {
    var ranked := Ranked(df);
    var m := HeadCount(TargetCount(tp, |df|), |df|);
    CutSorted(ranked, m);
    var s := ranked[..m];
    assert multiset(df) - multiset(s) == multiset(ranked[m..]);
    s
  }

  function P0s(s: seq<Prepared>): (r: seq<real>)
    ensures |r| == |s|
  {
    seq(|s|, i requires 0 <= i < |s| => s[i].p0)
  }

  function Aovs(s: seq<Prepared>): (r: seq<real>)
    ensures |r| == |s|
  {
    seq(|s|, i requires 0 <= i < |s| => s[i].avgOrderValue)
  }

  // ---------------------------------------------------------------------------
  // Order-value fallback
  // ---------------------------------------------------------------------------

  const FallbackOrderValue: real := 100.0

  /** `if np.all((aov == 0) | np.isnan(aov)): aov = np.full_like(p0, 100.0)`.
      Order values arrive with NaN already filled by 0, so "zero or NaN" is "zero". */
  function Fallback(aov: seq<real>): (r: seq<real>)
    ensures |r| == |aov|
    ensures (forall i :: 0 <= i < |aov| ==> aov[i] == 0.0) ==> forall i :: 0 <= i < |r| ==> r[i] == FallbackOrderValue
    ensures (exists i :: 0 <= i < |aov| && aov[i] != 0.0) ==> r == aov
  {
    if forall i :: 0 <= i < |aov| ==> aov[i] == 0.0 then seq(|aov|, _ => FallbackOrderValue) else aov
  }

  // ---------------------------------------------------------------------------
  // Treatment model and expectations
  // ---------------------------------------------------------------------------

  /** `p1 = clip(p0 + beta·d·(1 − p0), 0, 1)`. */
  function Treat(p0: real, beta: real, d: real): (p1: real)
    ensures 0.0 <= p1 <= 1.0
    ensures beta * d >= 0.0 && p0 <= 1.0 ==> p1 >= p0
    ensures 0.0 <= p0 <= 1.0 && beta * d == 0.0 ==> p1 == p0
    ensures 0.0 <= p0 + beta * d * (1.0 - p0) <= 1.0 ==> p1 == p0 + beta * d * (1.0 - p0)
    ensures p0 + beta * d * (1.0 - p0) > 1.0 ==> p1 == 1.0
    ensures p0 + beta * d * (1.0 - p0) < 0.0 ==> p1 == 0.0
  {
    var raw := p0 + beta * d * (1.0 - p0);
    MulNonNegative(beta * d, 1.0 - p0);
    assert beta * d == 0.0 ==> raw == p0;
    Clip(raw, 0.0, 1.0)
  }

  function TreatAll(p0s: seq<real>, beta: real, d: real): (p1s: seq<real>)
    ensures |p1s| == |p0s|
    ensures forall i :: 0 <= i < |p0s| ==> p1s[i] == Treat(p0s[i], beta, d)
  {
    seq(|p0s|, i requires 0 <= i < |p0s| => Treat(p0s[i], beta, d))
  }

  /** The closed-form quantities of one policy cell. */
  datatype Expectation = Expectation(baseProfit: real, treatProfit: real, delta: real, discountCost: real, roi: Stat)

  /** `p·aov·rate`, per customer: the expected value of a per-purchase amount
      `aov·rate` paid with probability `p`. Baseline profit uses `p0` and the
      margin, treated profit `p1` and `margin − d`, discount cost `p1` and `d`. */
  function Terms(ps: seq<real>, aov: seq<real>, rate: real): (r: seq<real>)
    requires |ps| == |aov|
    ensures |r| == |aov|
    ensures forall i :: 0 <= i < |aov| ==> r[i] == ps[i] * aov[i] * rate
  {
    seq(|aov|, i requires 0 <= i < |aov| => ps[i] * aov[i] * rate)
  }

  /** Expected baseline and treated profit, their difference, the expected
      discount cost, and the ROI, which is NaN unless the cost is positive. */
  function Expect(p0s: seq<real>, p1s: seq<real>, aov: seq<real>, margin: real, d: real): (e: Expectation)
    requires |p0s| == |aov| && |p1s| == |aov|
    ensures e.baseProfit == Sum(Terms(p0s, aov, margin))
    ensures e.discountCost == Sum(Terms(p1s, aov, d))
    ensures e.delta == e.treatProfit - e.baseProfit
    ensures e.roi.NaN? <==> e.discountCost <= 0.0
    ensures e.roi.Finite? ==> e.roi.value == e.delta / e.discountCost
  {
    var base := Sum(Terms(p0s, aov, margin));
    var treat := Sum(Terms(p1s, aov, margin - d));
    var cost := Sum(Terms(p1s, aov, d));
    var delta := treat - base;
    Expectation(base, treat, delta, cost, if cost > 0.0 then Finite(delta / cost) else NaN)
  }

  lemma TermsTail(ps: seq<real>, aov: seq<real>, rate: real)
    requires |ps| == |aov| && aov != []
    ensures Terms(ps, aov, rate)[1..] == Terms(ps[1..], aov[1..], rate)
  {
    var t, u := Terms(ps, aov, rate), Terms(ps[1..], aov[1..], rate);
    forall i | 0 <= i < |u|
      ensures t[1..][i] == u[i]
    {
      assert t[i + 1] == ps[i + 1] * aov[i + 1] * rate;
    }
  }

  /** Per-customer terms are linear in the rate. */
  lemma {:induction false} TermsAdd(ps: seq<real>, aov: seq<real>, x: real, y: real)
    requires |ps| == |aov|
    ensures Sum(Terms(ps, aov, x)) + Sum(Terms(ps, aov, y)) == Sum(Terms(ps, aov, x + y))
  {
    if aov != [] {
      TermsTail(ps, aov, x);
      TermsTail(ps, aov, y);
      TermsTail(ps, aov, x + y);
      TermsAdd(ps[1..], aov[1..], x, y);
      var w := ps[0] * aov[0];
      assert w * x + w * y == w * (x + y);
    }
  }

  /** The treated revenue at full margin splits into the treated profit and
      the discount paid: `Σ p1·aov·(margin − d) + Σ p1·aov·d = Σ p1·aov·margin`. */
  lemma ExpectSplitsRevenue(p0s: seq<real>, p1s: seq<real>, aov: seq<real>, margin: real, d: real)
    requires |p0s| == |aov| && |p1s| == |aov|
    ensures var e := Expect(p0s, p1s, aov, margin, d);
      e.treatProfit + e.discountCost == Sum(Terms(p1s, aov, margin))
  {
    TermsAdd(p1s, aov, margin - d, d);
    assert margin - d + d == margin;
  }

  /** The realised profit delta of one Monte Carlo trial with outcome vectors
      `b0` (baseline) and `b1` (treated): `Σ b1·aov·(margin − d) − b0·aov·margin`. */
  function TrialDelta(b0: seq<real>, b1: seq<real>, aov: seq<real>, margin: real, d: real): (delta: real)
    requires |b0| == |aov| && |b1| == |aov|
    ensures delta == Sum(Terms(b1, aov, margin - d)) - Sum(Terms(b0, aov, margin))
  {
    var t, b := Terms(b1, aov, margin - d), Terms(b0, aov, margin);
    assert Diff(t, b) == seq(|aov|, i requires 0 <= i < |aov| => b1[i] * aov[i] * (margin - d) - b0[i] * aov[i] * margin);
    SumDiff(t, b);
    Sum(seq(|aov|, i requires 0 <= i < |aov| => b1[i] * aov[i] * (margin - d) - b0[i] * aov[i] * margin))
  }

  /** The closed-form delta is the per-trial delta evaluated at the probabilities
      themselves, i.e. the trial delta's expectation by linearity. */
  lemma ExpectedDeltaIsTrialDeltaAtProbabilities(p0s: seq<real>, p1s: seq<real>, aov: seq<real>, margin: real, d: real)
    requires |p0s| == |aov| && |p1s| == |aov|
    ensures Expect(p0s, p1s, aov, margin, d).delta == TrialDelta(p0s, p1s, aov, margin, d)
  {
  }

  /** With no discount the treated probabilities equal the baseline ones, so
      the expected delta is 0 and the ROI is NaN. */
  lemma ZeroDiscount(p0s: seq<real>, aov: seq<real>, margin: real, beta: real)
    requires |p0s| == |aov|
    requires forall i :: 0 <= i < |p0s| ==> 0.0 <= p0s[i] <= 1.0
    ensures TreatAll(p0s, beta, 0.0) == p0s
    ensures Expect(p0s, TreatAll(p0s, beta, 0.0), aov, margin, 0.0).delta == 0.0
    ensures Expect(p0s, TreatAll(p0s, beta, 0.0), aov, margin, 0.0).roi == NaN
  {
    var p1s := TreatAll(p0s, beta, 0.0);
    assert p1s == p0s;
    assert Terms(p1s, aov, margin) == Terms(p0s, aov, margin);
    SumZero(Terms(p1s, aov, 0.0));
  }

  /** For a non-negative discount and order values the expected cost is never
      negative, so the ROI is NaN exactly when the cost is zero. */
  lemma RoiSentinelAtZeroCost(p0s: seq<real>, p1s: seq<real>, aov: seq<real>, margin: real, d: real)
    requires |p0s| == |aov| && |p1s| == |aov|
    requires d >= 0.0
    requires forall i :: 0 <= i < |aov| ==> aov[i] >= 0.0 && 0.0 <= p1s[i]
    ensures Expect(p0s, p1s, aov, margin, d).discountCost >= 0.0
    ensures Expect(p0s, p1s, aov, margin, d).roi.NaN? <==> Expect(p0s, p1s, aov, margin, d).discountCost == 0.0
  {
    var c := Terms(p1s, aov, d);
    forall i | 0 <= i < |c|
      ensures c[i] >= 0.0
    {
      assert p1s[i] * aov[i] >= 0.0;
    }
    SumNonNegative(c);
  }

  // ---------------------------------------------------------------------------
  // Result rows, the sweep and the ranking
  // ---------------------------------------------------------------------------

  /** One output row; the Monte Carlo mean and interval are not modelled. */
  datatype SimRow = SimRow(
    targetPct: real,
    discount: real,
    nTarget: int,
    avgAov: Stat,
    avgP0: Stat,
    avgP1: Stat,
    liftAbs: Stat,
    deltaProfitExpectation: real,
    treatRoi: Stat)

  /** The row of one (tp, d) cell for a slice with baseline probabilities
      `p0s` and (post-fallback) order values `aov`. */
  function CellRow(tp: real, k: int, p0s: seq<real>, aov: seq<real>, d: real, margin: real, beta: real): (row: SimRow)
    requires |p0s| == |aov|
    ensures row.targetPct == tp && row.discount == d && row.nTarget == k
    ensures row.avgAov == Mean(aov)
    ensures row.avgP0 == Mean(p0s)
    ensures row.avgP1 == Mean(TreatAll(p0s, beta, d))
    ensures row.avgP1.NaN? <==> |p0s| == 0
    ensures var e := Expect(p0s, TreatAll(p0s, beta, d), aov, margin, d);
      row.deltaProfitExpectation == e.delta && row.treatRoi == e.roi
    ensures row.liftAbs.NaN? <==> |p0s| == 0
    ensures |p0s| > 0 ==> row.liftAbs.value == row.avgP1.value - row.avgP0.value
    ensures |p0s| > 0 ==> 0.0 <= row.avgP1.value <= 1.0
    ensures |p0s| > 0 && beta * d >= 0.0 && (forall i :: 0 <= i < |p0s| ==> p0s[i] <= 1.0) ==> row.liftAbs.value >= 0.0
    ensures d == 0.0 && (forall i :: 0 <= i < |p0s| ==> 0.0 <= p0s[i] <= 1.0) ==> row.deltaProfitExpectation == 0.0 && row.treatRoi == NaN
  {
    var p1s := TreatAll(p0s, beta, d);
    var e := Expect(p0s, p1s, aov, margin, d);
    var row := SimRow(tp, d, k, Mean(aov), Mean(p0s), Mean(p1s), Mean(Diff(p1s, p0s)), e.delta, e.roi);
    CellRowFacts(p0s, aov, d, margin, beta);
    row
  }

  lemma CellRowFacts(p0s: seq<real>, aov: seq<real>, d: real, margin: real, beta: real)
    requires |p0s| == |aov|
    ensures var p1s := TreatAll(p0s, beta, d);
      && (|p0s| > 0 ==> Mean(Diff(p1s, p0s)).value == Mean(p1s).value - Mean(p0s).value)
      && (|p0s| > 0 ==> 0.0 <= Mean(p1s).value <= 1.0)
      && (|p0s| > 0 && beta * d >= 0.0 && (forall i :: 0 <= i < |p0s| ==> p0s[i] <= 1.0) ==> Mean(Diff(p1s, p0s)).value >= 0.0)
      && (d == 0.0 && (forall i :: 0 <= i < |p0s| ==> 0.0 <= p0s[i] <= 1.0) ==>
            Expect(p0s, p1s, aov, margin, d).delta == 0.0 && Expect(p0s, p1s, aov, margin, d).roi == NaN)
  {
    var p1s := TreatAll(p0s, beta, d);
    if |p0s| > 0 {
      MeanDiff(p1s, p0s);
      MeanBounds(p1s, 0.0, 1.0);
      if beta * d >= 0.0 && (forall i :: 0 <= i < |p0s| ==> p0s[i] <= 1.0) {
        MeanNonNegative(Diff(p1s, p0s));
      }
    }
    if d == 0.0 && (forall i :: 0 <= i < |p0s| ==> 0.0 <= p0s[i] <= 1.0) {
      ZeroDiscount(p0s, aov, margin, beta);
    }
  }

  /** The rows of one target fraction, in discount order. The slice and its
      order-value fallback are computed once and shared by every discount. */
  function TargetRows(df: seq<Prepared>, tp: real, discounts: seq<real>, margin: real, beta: real): (r: seq<SimRow>)
    ensures |r| == |discounts|
    ensures forall j :: 0 <= j < |r| ==>
              r[j].targetPct == tp && r[j].discount == discounts[j] && r[j].nTarget == TargetCount(tp, |df|)
    ensures forall j, j' :: 0 <= j < |r| && 0 <= j' < |r| ==> r[j].avgAov == r[j'].avgAov
  {
    var slice := TargetSlice(df, tp);
    var k := TargetCount(tp, |df|);
    var p0s := P0s(slice);
    var aov := Fallback(Aovs(slice));
    seq(|discounts|, j requires 0 <= j < |discounts| => CellRow(tp, k, p0s, aov, discounts[j], margin, beta))
  }

  lemma TargetRowsCell(df: seq<Prepared>, tp: real, discounts: seq<real>, margin: real, beta: real, j: int)
    requires 0 <= j < |discounts|
    ensures var slice := TargetSlice(df, tp);
      TargetRows(df, tp, discounts, margin, beta)[j]
        == CellRow(tp, TargetCount(tp, |df|), P0s(slice), Fallback(Aovs(slice)), discounts[j], margin, beta)
  {
  }

  /** The rows of each target fraction, in target order. */
  function Blocks(df: seq<Prepared>, targets: seq<real>, discounts: seq<real>, margin: real, beta: real): (b: seq<seq<SimRow>>)
    ensures |b| == |targets|
    ensures Uniform(b, |discounts|)
  {
    seq(|targets|, i requires 0 <= i < |targets| => TargetRows(df, targets[i], discounts, margin, beta))
  }

  lemma BlockRows(df: seq<Prepared>, targets: seq<real>, discounts: seq<real>, margin: real, beta: real, i: int)
    requires 0 <= i < |targets|
    ensures Blocks(df, targets, discounts, margin, beta)[i] == TargetRows(df, targets[i], discounts, margin, beta)
  {
  }

  /** The nested sweep: outer loop over target fractions, inner over discounts. */
  function Sweep(df: seq<Prepared>, targets: seq<real>, discounts: seq<real>, margin: real, beta: real): (r: seq<SimRow>)
    ensures |r| == |targets| * |discounts|
  {
    var blocks := Blocks(df, targets, discounts, margin, beta);
    FlattenLength(blocks, |discounts|);
    Flatten(blocks)
  }

  /** Cell (i, j) of the grid is row `i·|discounts| + j` of the sweep. */
  lemma SweepLayout(df: seq<Prepared>, targets: seq<real>, discounts: seq<real>, margin: real, beta: real, i: int, j: int)
    requires 0 <= i < |targets| && 0 <= j < |discounts|
    ensures 0 <= i * |discounts| + j < |Sweep(df, targets, discounts, margin, beta)|
    ensures Sweep(df, targets, discounts, margin, beta)[i * |discounts| + j] == TargetRows(df, targets[i], discounts, margin, beta)[j]
  {
    SweepBlockLayout(df, targets, discounts, margin, beta, i, j);
    BlockRows(df, targets, discounts, margin, beta, i);
  }

  lemma SweepBlockLayout(df: seq<Prepared>, targets: seq<real>, discounts: seq<real>, margin: real, beta: real, i: int, j: int)
    requires 0 <= i < |targets| && 0 <= j < |discounts|
    ensures 0 <= i * |discounts| + j < |Sweep(df, targets, discounts, margin, beta)|
    ensures Sweep(df, targets, discounts, margin, beta)[i * |discounts| + j] == Blocks(df, targets, discounts, margin, beta)[i][j]
  {
    var blocks := Blocks(df, targets, discounts, margin, beta);
    var sweep := Sweep(df, targets, discounts, margin, beta);
    SweepIsFlatten(df, targets, discounts, margin, beta);
    assert sweep == Flatten(blocks);
    FlattenLayout(blocks, |discounts|, i, j);
  }

  lemma SweepIsFlatten(df: seq<Prepared>, targets: seq<real>, discounts: seq<real>, margin: real, beta: real)
    ensures Sweep(df, targets, discounts, margin, beta) == Flatten(Blocks(df, targets, discounts, margin, beta))
  {
  }

  function DeltaOf(row: SimRow): real { row.deltaProfitExpectation }

  /** How `simulate` fails. `EmptyGrid`: `pd.DataFrame(out).sort_values(...)` on
      an empty `out`, a frame without columns, raises KeyError. `NoTrials`: with
      `n_mc <= 0` no trial runs, and `np.percentile` of the empty `deltas` raises
      at the first grid cell. */
  datatype SimError = EmptyGrid | NoTrials

  /** `simulate(df, targets, discounts, margin, beta, n_mc, …)` without the
      Monte Carlo columns: the sweep's rows ranked by expected delta, highest
      first. With no target or no discount the sweep produces no row and the
      final sort fails; otherwise a non-positive `n_mc` fails at the first cell. */
  function Simulate(df: seq<Customer>, targets: seq<real>, discounts: seq<real>, margin: real, beta: real, nMc: int): (r: Result<seq<SimRow>, SimError>)
    ensures r == Err(EmptyGrid) <==> targets == [] || discounts == []
    ensures r == Err(NoTrials) <==> targets != [] && discounts != [] && nMc <= 0
    ensures r.Ok? <==> targets != [] && discounts != [] && nMc >= 1
    ensures r.Ok? ==> |r.value| == |targets| * |discounts|
    ensures r.Ok? ==> multiset(r.value) == multiset(Sweep(Prepare(df), targets, discounts, margin, beta))
    ensures r.Ok? ==> SortedDesc(r.value, DeltaOf)
  {
    var sweep := Sweep(Prepare(df), targets, discounts, margin, beta);
    ProductZero(|targets|, |discounts|);
    if sweep == [] then Err(EmptyGrid)
    else if nMc <= 0 then Err(NoTrials)
    else Ok(SortDesc(sweep, DeltaOf))
  }

  /** Every grid cell has its row in the ranked table, reporting that cell's
      target fraction, discount and `n_target = ceil(tp·n)`. */
  lemma SimulateCoversGrid(df: seq<Customer>, targets: seq<real>, discounts: seq<real>, margin: real, beta: real, nMc: int, i: int, j: int)
    requires 0 <= i < |targets| && 0 <= j < |discounts| && nMc >= 1
    ensures Simulate(df, targets, discounts, margin, beta, nMc).Ok?
    ensures exists q :: 0 <= q < |Simulate(df, targets, discounts, margin, beta, nMc).value| &&
              var row := Simulate(df, targets, discounts, margin, beta, nMc).value[q];
              row.targetPct == targets[i] && row.discount == discounts[j] && row.nTarget == TargetCount(targets[i], |df|)
  {
    var pre := Prepare(df);
    var sweep := Sweep(pre, targets, discounts, margin, beta);
    SweepLayout(pre, targets, discounts, margin, beta, i, j);
    var row := sweep[i * |discounts| + j];
    assert row in multiset(sweep);
    var r := Simulate(df, targets, discounts, margin, beta, nMc).value;
    assert row in multiset(r);
    var q :| 0 <= q < |r| && r[q] == row;
  }

  datatype RunError = ListFailed(list: ListError) | LoadFailed(load: LoadError) | SimulateFailed(sim: SimError)

  /** The pipeline of `main`: parse the target and discount lists, load the
      predictions and the snapshot, left-merge them on `cust_uid`, and simulate.
      The first step that fails decides the error; an empty grid fails only
      at the final sort, and a non-positive `--n-mc` at the first grid cell,
      both after the two files have been read. */
  function Run(targetsArg: string, discountsArg: string, parse: string -> Option<real>,
               predsPath: string, preds: Option<PredsFile>, snapPath: string, snap: Option<AovFile>,
               margin: real, beta: real, nMc: int): (r: Result<seq<SimRow>, RunError>)
    ensures var ts := ParseFloats(targetsArg, "targets", parse);
      var ds := ParseFloats(discountsArg, "discounts", parse);
      var ps := LoadPreds(predsPath, preds);
      var ss := LoadAov(snapPath, snap);
      && (ts.Err? ==> r == Err(ListFailed(ts.error)))
      && (ts.Ok? && ds.Err? ==> r == Err(ListFailed(ds.error)))
      && (ts.Ok? && ds.Ok? && ps.Err? ==> r == Err(LoadFailed(ps.error)))
      && (ts.Ok? && ds.Ok? && ps.Ok? && ss.Err? ==> r == Err(LoadFailed(ss.error)))
      && (ts.Ok? && ds.Ok? && ps.Ok? && ss.Ok? && (ts.value == [] || ds.value == []) ==> r == Err(SimulateFailed(EmptyGrid)))
      && (ts.Ok? && ds.Ok? && ps.Ok? && ss.Ok? && ts.value != [] && ds.value != [] && nMc <= 0 ==> r == Err(SimulateFailed(NoTrials)))
      && (r.Ok? <==> ts.Ok? && ds.Ok? && ps.Ok? && ss.Ok? && ts.value != [] && ds.value != [] && nMc >= 1)
      && (r.Ok? ==> |r.value| == |ts.value| * |ds.value| && SortedDesc(r.value, DeltaOf))
      && (r.Ok? ==> r == Ok(Simulate(MergeLeft(ps.value, ss.value), ts.value, ds.value, margin, beta, nMc).value))
  {
    var ts := ParseFloats(targetsArg, "targets", parse);
    if ts.Err? then Err(ListFailed(ts.error))
    else
      var ds := ParseFloats(discountsArg, "discounts", parse);
      if ds.Err? then Err(ListFailed(ds.error))
      else
        var ps := LoadPreds(predsPath, preds);
        if ps.Err? then Err(LoadFailed(ps.error))
        else
          var ss := LoadAov(snapPath, snap);
          if ss.Err? then Err(LoadFailed(ss.error))
          else
            var sim := Simulate(MergeLeft(ps.value, ss.value), ts.value, ds.value, margin, beta, nMc);
            if sim.Err? then Err(SimulateFailed(sim.error)) else Ok(sim.value)
  }

  /** A missing snapshot is not an error: every customer is simulated with a
      NaN order value, which preparation turns into 0. */
  lemma RunWithoutSnapshot(targetsArg: string, discountsArg: string, parse: string -> Option<real>,
                           predsPath: string, preds: Option<PredsFile>, snapPath: string,
                           margin: real, beta: real, nMc: int)
    requires ParseFloats(targetsArg, "targets", parse).Ok? && ParseFloats(discountsArg, "discounts", parse).Ok?
    requires LoadPreds(predsPath, preds).Ok?
    ensures Run(targetsArg, discountsArg, parse, predsPath, preds, snapPath, None, margin, beta, nMc).Ok? <==>
              ParseFloats(targetsArg, "targets", parse).value != [] && ParseFloats(discountsArg, "discounts", parse).value != [] && nMc >= 1
    ensures var ps := LoadPreds(predsPath, preds).value;
      var df := MergeLeft(ps, []);
      var r := Run(targetsArg, discountsArg, parse, predsPath, preds, snapPath, None, margin, beta, nMc);
      && (r.Ok? ==> r.value == Simulate(df, ParseFloats(targetsArg, "targets", parse).value,
                                         ParseFloats(discountsArg, "discounts", parse).value, margin, beta, nMc).value)
      && |df| == |ps|
      && forall i :: 0 <= i < |ps| ==> df[i] == Customer(ps[i].uid, ps[i].churnProb, NaN)
  {
    var ps := LoadPreds(predsPath, preds).value;
    MergeLeftUnique(ps, []);
    forall i | 0 <= i < |ps|
      ensures Lookup([], ps[i].uid) == NaN
    {
    }
  }

  /** A target list of nothing but commas and blanks parses, yet the run fails:
      the grid is empty and the final sort raises. */
  lemma RunBlankTargets(targetsArg: string, discountsArg: string, parse: string -> Option<real>,
                        predsPath: string, preds: Option<PredsFile>, snapPath: string, snap: Option<AovFile>,
                        margin: real, beta: real, nMc: int)
    requires forall i :: 0 <= i < |targetsArg| ==> targetsArg[i] == ',' || IsSpace(targetsArg[i])
    requires ParseFloats(discountsArg, "discounts", parse).Ok?
    requires LoadPreds(predsPath, preds).Ok? && LoadAov(snapPath, snap).Ok?
    ensures Run(targetsArg, discountsArg, parse, predsPath, preds, snapPath, snap, margin, beta, nMc) == Err(SimulateFailed(EmptyGrid))
  {
    ParseFloatsBlank(targetsArg, "targets", parse);
  }
}
