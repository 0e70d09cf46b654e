/** What every table the solver may report as a solution has in common:
    facts about feasible assignments that hold whatever the search returns. */
module Feasibility {
  import opened Formulation

  // ---------------------------------------------------------------------------
  // The objective does not depend on the assignment

  /** Under exactly-one, the objective of lines 65-67 is Σ_c |pop_c - ideal|,
      whichever district each county is put in. */
  lemma {:induction false} ObjectiveIgnoresDistricts(pops: seq<nat>, ideal: real, D: nat, x: Table)
    requires ExactlyOne(x, |pops|, D)
    ensures Objective(pops, ideal, D, x) == TotalDeviation(pops, ideal)
  {
    if |pops| > 0 {
      var n := |pops|;
      assert ExactlyOne(x, n - 1, D);
      ObjectiveIgnoresDistricts(pops[..n - 1], ideal, D, x);
      ObjectiveLastCounty(pops, ideal, D, x);
    }
  }

  /** A county whose row sums to 1 adds exactly its deviation to the objective. */
  lemma ObjectiveLastCounty(pops: seq<nat>, ideal: real, D: nat, x: Table)
    requires |pops| > 0 && RowSum(x, |pops| - 1, D) == 1
    ensures Objective(pops, ideal, D, x) ==
      Objective(pops[..|pops| - 1], ideal, D, x) + Deviation(pops[|pops| - 1], ideal)
  {
    var n := |pops|;
    var dev := Deviation(pops[n - 1], ideal);
    var front := ObjectiveTerms(pops[..n - 1], ideal, D);
    var last := DistrictTerms(n - 1, dev, D);
    assert Eval(front + last, x) == Eval(front, x) + Eval(last, x) by { EvalAppend(front, last, x); }
    assert Eval(last, x) == dev by { EvalDistrictTerms(x, n - 1, dev, D); }
  }

  // ---------------------------------------------------------------------------
  // Every county's population is counted in exactly one district

  /** The population of the first k districts together. */
  function PlacedPop(pops: seq<nat>, x: Table, k: nat): int
  {
    if k == 0 then 0 else PlacedPop(pops, x, k - 1) + DistrictPop(pops, x, k - 1)
  }

  lemma {:induction false} PlacedPopSplit(pops: seq<nat>, x: Table, k: nat)
    requires |pops| > 0
    ensures PlacedPop(pops, x, k) ==
      PlacedPop(pops[..|pops| - 1], x, k) + pops[|pops| - 1] * RowSum(x, |pops| - 1, k)
  {
    if k > 0 {
      var n := |pops|;
      PlacedPopSplit(pops, x, k - 1);
      calc {
        pops[n - 1] * RowSum(x, n - 1, k);
        pops[n - 1] * (RowSum(x, n - 1, k - 1) + At(x, n - 1, k - 1));
        pops[n - 1] * RowSum(x, n - 1, k - 1) + pops[n - 1] * At(x, n - 1, k - 1);
      }
    }
  }

  /** Under exactly-one, the district populations add up to the total population. */
  lemma {:induction false} DistrictsShareTotal(pops: seq<nat>, x: Table, D: nat)
    requires ExactlyOne(x, |pops|, D)
    ensures PlacedPop(pops, x, D) == Total(pops)
  {
    if |pops| == 0 {
      ZeroPlaced(pops, x, D);
    } else {
      var n := |pops|;
      assert ExactlyOne(x, n - 1, D);
      DistrictsShareTotal(pops[..n - 1], x, D);
      PlacedPopSplit(pops, x, D);
    }
  }

  lemma {:induction false} ZeroPlaced(pops: seq<nat>, x: Table, k: nat)
    requires |pops| == 0
    ensures PlacedPop(pops, x, k) == 0
  {
    if k > 0 {
      ZeroPlaced(pops, x, k - 1);
    }
  }

  /** Summing the per-district bounds of lines 76-77 over the first k districts. */
  lemma {:induction false} PlacedPopBounds(pops: seq<nat>, x: Table, ideal: real, tol: real, D: nat, k: nat)
    requires Balanced(pops, x, ideal, tol, D) && k <= D
    ensures k as real * (ideal * (1.0 - tol)) <= PlacedPop(pops, x, k) as real <= k as real * (ideal * (1.0 + tol))
  {
    if k > 0 {
      PlacedPopBounds(pops, x, ideal, tol, D, k - 1);
      assert ideal * (1.0 - tol) <= DistrictPop(pops, x, k - 1) as real <= ideal * (1.0 + tol);
    }
  }

  /** In a feasible table the whole population lies between D lower bounds and D upper bounds. */
  lemma TotalWithinDistrictBounds(pops: seq<nat>, adj: Table, ideal: real, tol: real, D: nat, x: Table)
    requires Feasible(pops, adj, ideal, tol, D, x)
    ensures D as real * (ideal * (1.0 - tol)) <= Total(pops) as real <= D as real * (ideal * (1.0 + tol))
  {
    DistrictsShareTotal(pops, x, D);
    PlacedPopBounds(pops, x, ideal, tol, D, D);
  }

  /** With the ideal of line 55 and a positive total, a negative tolerance
      leaves no feasible table. */
  lemma NegativeToleranceInfeasible(pops: seq<nat>, adj: Table, tol: real, D: nat, x: Table)
    requires D > 0 && Total(pops) > 0 && tol < 0.0
    ensures !Feasible(pops, adj, Ideal(pops, D), tol, D, x)
  {
    var ideal := Ideal(pops, D);
    if Feasible(pops, adj, ideal, tol, D, x) {
      TotalWithinDistrictBounds(pops, adj, ideal, tol, D, x);
    }
  }

  /** With the ideal of line 55 and tolerance 0, every district must hold
      exactly total / D people, so no table is feasible unless D divides the total. */
  lemma ZeroToleranceNeedsDivisibility(pops: seq<nat>, adj: Table, D: nat, x: Table)
    requires D > 0 && Total(pops) % D != 0
    ensures !Feasible(pops, adj, Ideal(pops, D), 0.0, D, x)
  {
    var ideal := Ideal(pops, D);
    if Feasible(pops, adj, ideal, 0.0, D, x) {
      var p := DistrictPop(pops, x, 0);
      assert p as real == ideal by {
        assert Balanced(pops, x, ideal, 0.0, D);
      }
      assert p * D == Total(pops) by {
        RealOfProduct(p, D);
      }
      MultipleHasNoRemainder(p, D);
    }
  }

  lemma RealOfProduct(a: int, b: int)
    ensures (a * b) as real == a as real * b as real
  {
  }

  lemma MultipleHasNoRemainder(p: int, d: int)
    requires d > 0
    ensures (p * d) % d == 0
  {
    var a := p * d;
    var k := a / d - p;
    assert d * k == -(a % d);
  }

  // ---------------------------------------------------------------------------
  // Coupling of neighbours

  /** A chain of neighbours (each step between two distinct counties marked
      adjacent) ends in the same district columns it starts in: the coupling
      of lines 80-85 puts a whole connected group of counties into one district. */
  lemma {:induction false} ChainSharesColumns(adj: Table, x: Table, n: nat, D: nat, path: seq<nat>)
    requires Coupled(adj, x, n, D)
    requires |path| > 0 && forall i :: 0 <= i < |path| ==> path[i] < n
    requires forall i :: 0 <= i < |path| - 1 ==> path[i] != path[i + 1] && At(adj, path[i], path[i + 1]) == 1
    ensures ColumnsAgree(x, path[0], path[|path| - 1], D)
  {
    if |path| > 1 {
      var rest := path[1..];
      assert forall i :: 0 <= i < |rest| ==> rest[i] == path[i + 1];
      ChainSharesColumns(adj, x, n, D, rest);
      assert CoupledFrom(adj, x, D, path[0], n);
      assert ColumnsAgree(x, path[0], path[1], D);
    }
  }

  /** A county with no neighbour marked in the matrix takes part in no coupling
      constraint: any column values may be put in its row. */
  lemma IsolatedCountyIsFree(adj: Table, x: Table, n: nat, D: nat, u: nat, row: seq<int>)
    requires u < |x| && Coupled(adj, x, n, D)
    requires forall v :: 0 <= v < n ==> At(adj, u, v) != 1 && At(adj, v, u) != 1
    ensures Coupled(adj, x[u := row], n, D)
  {
    var y := x[u := row];
    forall w, v | 0 <= w < n && 0 <= v < n && w != v && At(adj, w, v) == 1
      ensures ColumnsAgree(y, w, v, D)
    {
      assert w != u && v != u;
      assert CoupledFrom(adj, x, D, w, n);
      assert ColumnsAgree(x, w, v, D);
      forall d | 0 <= d < D ensures At(y, w, d) == At(y, v, d) {
        assert At(y, w, d) == At(x, w, d) && At(y, v, d) == At(x, v, d);
      }
    }
  }
}
