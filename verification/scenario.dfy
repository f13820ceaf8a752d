/**
 * The worked example of the policy simulator: four customers, target
 * fraction 0.5, discount 0.1, margin 0.25, elasticity 0.5.
 */
module Scenario {
  import opened Numeric
  import opened Ordering
  import opened Loaders
  import opened Simulator

  function Customers(): seq<Customer> {
    [ Customer("a", 0.9, Finite(50.0)),
      Customer("b", 0.1, Finite(200.0)),
      Customer("c", 0.5, Finite(0.0)),
      Customer("d", 0.3, Finite(0.0)) ]
  }

  const A: Prepared := Prepared(0.9, 0.1, 50.0)
  const B: Prepared := Prepared(0.1, 0.9, 200.0)
  const C: Prepared := Prepared(0.5, 0.5, 0.0)
  const D: Prepared := Prepared(0.3, 0.7, 0.0)

  lemma PreparedExample()
    ensures Prepare(Customers()) == [A, B, C, D]
  {
    assert BaselineReturn(0.9) == 0.1;
    assert BaselineReturn(0.1) == 0.9;
    assert BaselineReturn(0.5) == 0.5;
    assert BaselineReturn(0.3) == 0.7;
  }

  lemma InsertCD()
    ensures InsertDesc(C, [D], ChurnOf) == [C, D]
  {
  }

  lemma InsertBD()
    ensures InsertDesc(B, [D], ChurnOf) == [D, B]
  {
    assert [D][1..] == [];
    assert InsertDesc(B, [D], ChurnOf) == [D] + InsertDesc(B, [], ChurnOf);
  }

  lemma InsertBCD()
    ensures InsertDesc(B, [C, D], ChurnOf) == [C, D, B]
  {
    InsertBD();
    assert [C, D][1..] == [D];
    assert InsertDesc(B, [C, D], ChurnOf) == [C] + InsertDesc(B, [D], ChurnOf);
  }

  lemma InsertACDB()
    ensures InsertDesc(A, [C, D, B], ChurnOf) == [A, C, D, B]
  {
  }

  lemma InsertSteps()
    ensures InsertDesc(C, [D], ChurnOf) == [C, D]
    ensures InsertDesc(B, [D], ChurnOf) == [D, B]
    ensures InsertDesc(B, [C, D], ChurnOf) == [C, D, B]
    ensures InsertDesc(A, [C, D, B], ChurnOf) == [A, C, D, B]
  {
    InsertCD();
    InsertBCD();
    InsertACDB();
  }

  lemma SortSteps()
    ensures SortDesc([D], ChurnOf) == [D]
    ensures SortDesc([C, D], ChurnOf) == [C, D]
    ensures SortDesc([B, C, D], ChurnOf) == [C, D, B]
    ensures SortDesc([A, B, C, D], ChurnOf) == [A, C, D, B]
  {
    InsertSteps();
    assert [D][1..] == [];
    assert SortDesc([D], ChurnOf) == InsertDesc(D, SortDesc([], ChurnOf), ChurnOf);
    assert [C, D][1..] == [D];
    assert SortDesc([C, D], ChurnOf) == InsertDesc(C, SortDesc([D], ChurnOf), ChurnOf);
    assert [B, C, D][1..] == [C, D];
    assert SortDesc([B, C, D], ChurnOf) == InsertDesc(B, SortDesc([C, D], ChurnOf), ChurnOf);
    assert [A, B, C, D][1..] == [B, C, D];
    assert SortDesc([A, B, C, D], ChurnOf) == InsertDesc(A, SortDesc([B, C, D], ChurnOf), ChurnOf);
  }

  lemma RankedExample()
    ensures Ranked([A, B, C, D]) == [A, C, D, B]
  {
    SortSteps();
  }

  lemma HalfOfFour()
    ensures TargetCount(0.5, 4) == 2
  {
    var k := TargetCount(0.5, 4);
    assert (k - 1) as real < 2.0 <= k as real;
  }

  lemma SliceOfPrepared()
    ensures TargetSlice([A, B, C, D], 0.5) == [A, C]
  {
    RankedExample();
    HalfOfFour();
    assert HeadCount(2, 4) == 2;
    assert [A, C, D, B][..2] == [A, C];
  }

  lemma SliceExample()
    ensures TargetCount(0.5, 4) == 2
    ensures TargetSlice(Prepare(Customers()), 0.5) == [A, C]
  {
    PreparedExample();
    HalfOfFour();
    SliceOfPrepared();
  }

  lemma TreatExample()
    ensures TreatAll([0.1, 0.5], 0.5, 0.1) == [0.145, 0.525]
  {
    assert Treat(0.1, 0.5, 0.1) == 0.145;
    assert Treat(0.5, 0.5, 0.1) == 0.525;
  }

  lemma FallbackExample()
    ensures P0s([A, C]) == [0.1, 0.5]
    ensures Fallback(Aovs([A, C])) == [50.0, 0.0]
  {
    assert Aovs([A, C]) == [50.0, 0.0];
    assert Aovs([A, C])[0] != 0.0;
  }

  lemma ExpectExample()
    ensures var e := Expect([0.1, 0.5], [0.145, 0.525], [50.0, 0.0], 0.25, 0.1);
      && e.baseProfit == 1.25
      && e.treatProfit == 1.0875
      && e.delta == -0.1625
      && e.discountCost == 0.725
      && e.roi.Finite? && -0.2242 < e.roi.value < -0.2241
  {
    var aov := [50.0, 0.0];
    var p1s := [0.145, 0.525];
    assert Terms([0.1, 0.5], aov, 0.25) == [1.25, 0.0];
    assert Sum([1.25, 0.0]) == 1.25 by {
      assert [1.25, 0.0][1..] == [0.0];
      assert [0.0][1..] == [];
    }
    assert Terms(p1s, aov, 0.25 - 0.1) == [1.0875, 0.0];
    assert Sum([1.0875, 0.0]) == 1.0875 by {
      assert [1.0875, 0.0][1..] == [0.0];
      assert [0.0][1..] == [];
    }
    assert Terms(p1s, aov, 0.1) == [0.725, 0.0];
    assert Sum([0.725, 0.0]) == 0.725 by {
      assert [0.725, 0.0][1..] == [0.0];
      assert [0.0][1..] == [];
    }
  }

  /** The slice holds the 0.9 and 0.5 customers, no fallback applies,
      `p1 = [0.145, 0.525]`, the expected delta is −0.1625 on an expected
      discount cost of 0.725, and the ROI is about −0.2241. */
  lemma WorkedExample()
    ensures var slice := TargetSlice(Prepare(Customers()), 0.5);
      var aov := Fallback(Aovs(slice));
      var p1s := TreatAll(P0s(slice), 0.5, 0.1);
      var e := Expect(P0s(slice), p1s, aov, 0.25, 0.1);
      && |slice| == 2
      && P0s(slice) == [0.1, 0.5]
      && aov == [50.0, 0.0]
      && p1s == [0.145, 0.525]
      && e.baseProfit == 1.25
      && e.treatProfit == 1.0875
      && e.delta == -0.1625
      && e.discountCost == 0.725
      && e.roi.Finite? && -0.2242 < e.roi.value < -0.2241
  {
    SliceExample();
    FallbackExample();
    TreatExample();
    ExpectExample();
  }

  /** The sweep over that single cell yields one row reporting `n_target = 2`,
      a mean order value of 25 and the same expectation. */
  lemma WorkedExampleRow()
    ensures Simulate(Customers(), [0.5], [0.1], 0.25, 0.5, 300).Ok?
    ensures var rows := Simulate(Customers(), [0.5], [0.1], 0.25, 0.5, 300).value;
      && |rows| == 1
      && rows[0].targetPct == 0.5 && rows[0].discount == 0.1 && rows[0].nTarget == 2
      && rows[0].avgAov == Finite(25.0)
      && rows[0].deltaProfitExpectation == -0.1625
  {
    var pre := Prepare(Customers());
    var rows := Simulate(Customers(), [0.5], [0.1], 0.25, 0.5, 300).value;
    var sweep := Sweep(pre, [0.5], [0.1], 0.25, 0.5);
    SingletonPermutation(rows, sweep);
    SweepLayout(pre, [0.5], [0.1], 0.25, 0.5, 0, 0);
    CellExample();
  }

  lemma CellExample()
    ensures var row := TargetRows(Prepare(Customers()), 0.5, [0.1], 0.25, 0.5)[0];
      && row.targetPct == 0.5 && row.discount == 0.1 && row.nTarget == 2
      && row.avgAov == Finite(25.0)
      && row.deltaProfitExpectation == -0.1625
  {
    var pre := Prepare(Customers());
    PreparedExample();
    SliceExample();
    FallbackExample();
    TargetRowsCell(pre, 0.5, [0.1], 0.25, 0.5, 0);
    assert |pre| == 4;
    assert TargetRows(pre, 0.5, [0.1], 0.25, 0.5)[0] == CellRow(0.5, 2, [0.1, 0.5], [50.0, 0.0], 0.1, 0.25, 0.5);
    CellRowExample();
  }

  lemma CellRowExample()
    ensures var row := CellRow(0.5, 2, [0.1, 0.5], [50.0, 0.0], 0.1, 0.25, 0.5);
      && row.targetPct == 0.5 && row.discount == 0.1 && row.nTarget == 2
      && row.avgAov == Finite(25.0)
      && row.deltaProfitExpectation == -0.1625
  {
    TreatExample();
    ExpectExample();
    assert Sum([50.0, 0.0]) == 50.0 by {
      assert [50.0, 0.0][1..] == [0.0];
      assert [0.0][1..] == [];
    }
  }

  lemma SingletonPermutation<T>(r: seq<T>, s: seq<T>)
    requires |s| == 1 && multiset(r) == multiset(s)
    ensures r == s
  {
    assert |r| == |multiset(r)| == 1;
    assert r[0] in multiset(s);
  }
}
