/** `optimal_redistricting` and the script around it: build the problem,
    hand it to the solver, and read each county's district out of the
    solver's table. The solver is an oracle, a function from the problem to
    a status and a table of variable values. */
module Redistricting {
  import opened Counties
  import Adjacency
  import opened Formulation
  import opened Feasibility

  /** The number of districts the script asks for (line 54). */
  const NumDistricts: nat := 6

  /** The population tolerance the script passes (lines 58, 110). */
  const Tolerance: real := 0.15

  /** The solver's statuses (pulp.LpStatus). */
  datatype Status = NotSolved | Optimal | Infeasible | Unbounded | Undefined

  /** What the solver reports: its status and the value of every variable. */
  datatype Solution = Solution(status: Status, x: Table)

  datatype Option<T> = None | Some(value: T)

  /** One row of the result table: a county, its population and its district (1 .. D). */
  datatype Row = Row(name: string, pop: nat, district: nat)

  /** A successful result: the table and the objective's value. */
  datatype Plan = Plan(rows: seq<Row>, objective: real)

  // ---------------------------------------------------------------------------
  // Reading the districts out of the solver's table

  /** The label county c holds after the loop of lines 95-97 has seen districts
      0 .. k-1: one more than the last district whose value is 1, or the
      initial 0 of line 92 when no value is 1. */
  function LastDistrict(x: Table, c: nat, k: nat): (r: nat)
    ensures r <= k
    ensures r == 0 <==> forall j :: 0 <= j < k ==> At(x, c, j) != 1
    ensures r > 0 ==> At(x, c, r - 1) == 1 && forall j :: r <= j < k ==> At(x, c, j) != 1
  {
    if k == 0 then 0 else if At(x, c, k - 1) == 1 then k else LastDistrict(x, c, k - 1)
  }

  /** The result table for the prepared table and the solver's values. */
  function PlanRows(table: seq<County>, x: Table, D: nat): (r: seq<Row>)
    ensures |r| == |table|
    ensures forall c :: 0 <= c < |r| ==>
      r[c].name == table[c].name && r[c].pop == table[c].pop && r[c].district <= D
      && (r[c].district == 0 <==> forall j :: 0 <= j < D ==> At(x, c, j) != 1)
  {
    seq(|table|, c requires 0 <= c < |table| => Row(table[c].name, table[c].pop, LastDistrict(x, c, D)))
  }

  /** Lines 92-97: the district column starts at 0 and receives j + 1 wherever x[c][j] is 1. */
  method AssignDistricts(x: Table, n: nat, D: nat) returns (districts: seq<nat>)
    ensures |districts| == n
    ensures forall c :: 0 <= c < n ==> districts[c] == LastDistrict(x, c, D)
  {
    var column := new nat[n](_ => 0);
    for c := 0 to n
      invariant forall i :: 0 <= i < c ==> column[i] == LastDistrict(x, i, D)
      invariant forall i :: c <= i < n ==> column[i] == 0
    {
      for j := 0 to D
        invariant forall i :: 0 <= i < c ==> column[i] == LastDistrict(x, i, D)
        invariant forall i :: c < i < n ==> column[i] == 0
        invariant column[c] == LastDistrict(x, c, j)
      {
        if At(x, c, j) == 1 {
          column[c] := j + 1;
        }
      }
    }
    districts := column[..];
  }

  /** A 0/1 row that sums to one has a single 1, and the extracted label
      names its district: the label is in 1 .. k and is never the initial 0. */
  lemma {:induction false} OneHotDistrict(x: Table, c: nat, k: nat)
    requires forall j :: 0 <= j < k ==> At(x, c, j) == 0 || At(x, c, j) == 1
    requires RowSum(x, c, k) == 1
    ensures 1 <= LastDistrict(x, c, k) <= k
    ensures forall j :: 0 <= j < k ==> (At(x, c, j) == 1 <==> j == LastDistrict(x, c, k) - 1)
  {
    if At(x, c, k - 1) == 1 {
      BinaryRowSum(x, c, k - 1);
    } else {
      OneHotDistrict(x, c, k - 1);
    }
  }

  /** Two counties whose columns agree get the same label. */
  lemma {:induction false} AgreeingColumnsShareDistrict(x: Table, u: nat, v: nat, k: nat)
    requires ColumnsAgree(x, u, v, k)
    ensures LastDistrict(x, u, k) == LastDistrict(x, v, k)
  {
    if k > 0 {
      assert ColumnsAgree(x, u, v, k - 1);
      AgreeingColumnsShareDistrict(x, u, v, k - 1);
    }
  }

  /** The population of the rows labelled d. */
  function PopulationOf(rows: seq<Row>, d: nat): nat
  {
    if |rows| == 0 then 0
    else PopulationOf(rows[..|rows| - 1], d) + (if rows[|rows| - 1].district == d then rows[|rows| - 1].pop else 0)
  }

  /** In a 0/1 exactly-one table, the counties labelled j + 1 are those whose
      variable for district j is 1, so their population is district j's. */
  lemma {:induction false} LabelledPopulation(table: seq<County>, x: Table, D: nat, j: nat)
    requires Binary(x, |table|, D) && ExactlyOne(x, |table|, D) && j < D
    ensures PopulationOf(PlanRows(table, x, D), j + 1) == DistrictPop(Populations(table), x, j)
  {
    var n := |table|;
    if n > 0 {
      var front := table[..n - 1];
      assert PlanRows(table, x, D)[..n - 1] == PlanRows(front, x, D);
      assert Populations(table)[..n - 1] == Populations(front);
      assert Binary(x, n - 1, D) && ExactlyOne(x, n - 1, D);
      LabelledPopulation(front, x, D, j);
      OneHotDistrict(x, n - 1, D);
    }
  }

  // ---------------------------------------------------------------------------
  // What a plan from a feasible table promises

  /** Every county keeps its name and population and gets a district in
      1 .. D; neighbours share a district; every district's population is
      within the bounds; the objective is Σ |pop - ideal|. */
  predicate ValidPlan(plan: Plan, table: seq<County>, adj: Table, ideal: real, tol: real, D: nat)
  {
    var rows := plan.rows;
    |rows| == |table|
    && (forall c :: 0 <= c < |rows| ==>
          rows[c].name == table[c].name && rows[c].pop == table[c].pop && 1 <= rows[c].district <= D)
    && (forall u, v :: 0 <= u < |rows| && 0 <= v < |rows| && u != v && At(adj, u, v) == 1 ==>
          rows[u].district == rows[v].district)
    && (forall d :: 1 <= d <= D ==>
          ideal * (1.0 - tol) <= PopulationOf(rows, d) as real <= ideal * (1.0 + tol))
    && plan.objective == TotalDeviation(Populations(table), ideal)
  }

  lemma FeasiblePlanIsValid(table: seq<County>, adj: Table, ideal: real, tol: real, D: nat, x: Table)
    requires Feasible(Populations(table), adj, ideal, tol, D, x)
    ensures ValidPlan(Plan(PlanRows(table, x, D), Objective(Populations(table), ideal, D, x)), table, adj, ideal, tol, D)
  {
    var pops := Populations(table);
    var rows := PlanRows(table, x, D);
    forall c | 0 <= c < |rows| ensures 1 <= rows[c].district <= D {
      OneHotDistrict(x, c, D);
    }
    forall u, v | 0 <= u < |rows| && 0 <= v < |rows| && u != v && At(adj, u, v) == 1
      ensures rows[u].district == rows[v].district
    {
      assert CoupledFrom(adj, x, D, u, |pops|);
      AgreeingColumnsShareDistrict(x, u, v, D);
    }
    forall d | 1 <= d <= D
      ensures ideal * (1.0 - tol) <= PopulationOf(rows, d) as real <= ideal * (1.0 + tol)
    {
      LabelledPopulation(table, x, D, d - 1);
    }
    ObjectiveIgnoresDistricts(pops, ideal, D, x);
  }

  /** A chain of neighbours in a plan from a feasible table lies in one district. */
  lemma ChainSharesDistrict(table: seq<County>, adj: Table, ideal: real, tol: real, D: nat, x: Table, path: seq<nat>)
    requires Feasible(Populations(table), adj, ideal, tol, D, x)
    requires |path| > 0 && forall i :: 0 <= i < |path| ==> path[i] < |table|
    requires forall i :: 0 <= i < |path| - 1 ==> path[i] != path[i + 1] && At(adj, path[i], path[i + 1]) == 1
    ensures PlanRows(table, x, D)[path[0]].district == PlanRows(table, x, D)[path[|path| - 1]].district
  {
    ChainSharesColumns(adj, x, |table|, D, path);
    AgreeingColumnsShareDistrict(x, path[0], path[|path| - 1], D);
  }

  /** The rows of a plan over the prepared table never name a removed county
      and come in name order. */
  lemma PreparedPlanRows(counties: seq<County>, x: Table, D: nat)
    ensures var rows := PlanRows(Prepare(counties), x, D);
      (forall i :: 0 <= i < |rows| ==> rows[i].name !in RemovedNames)
      && (forall i :: 0 <= i < |rows| - 1 ==> NameLe(rows[i].name, rows[i + 1].name))
  {
    var table := Prepare(counties);
    var rows := PlanRows(table, x, D);
    assert forall i :: 0 <= i < |rows| ==> rows[i].name == table[i].name;
  }

  /** The matrix for three counties A, B, C when the raw list holds only (A, B). */
  lemma ExampleMatrix()
    ensures Adjacency.AdjacencyMatrix(["A", "B", "C"], [("A", "B")]) == [[0, 1, 0], [1, 0, 0], [0, 0, 0]]
  {
    var pairs := [("A", "B")];
    var adj := Adjacency.AdjacencyMatrix(["A", "B", "C"], pairs);
    assert adj[0] == [0, 1, 0] by {
      assert Adjacency.Listed(pairs, "A", "B") && !Adjacency.Listed(pairs, "A", "C");
    }
    assert adj[1] == [1, 0, 0] by {
      assert Adjacency.Listed(pairs, "B", "A") && !Adjacency.Listed(pairs, "B", "C");
    }
    assert adj[2] == [0, 0, 0] by {
      assert !Adjacency.Listed(pairs, "C", "A") && !Adjacency.Listed(pairs, "C", "B");
    }
  }

  /** Three counties of 100 people, A and B neighbours, two districts and a
      tolerance of one half: the ideal is 150; A and B together in district 1
      and C alone in district 2 is feasible, and its objective is 3 · 50. */
  lemma ExampleFeasible()
    ensures Ideal([100, 100, 100], 2) == 150.0
    ensures Feasible([100, 100, 100], [[0, 1, 0], [1, 0, 0], [0, 0, 0]], 150.0, 0.5, 2, [[1, 0], [1, 0], [0, 1]])
    ensures Objective([100, 100, 100], 150.0, 2, [[1, 0], [1, 0], [0, 1]]) == 150.0
  {
    var pops: seq<nat> := [100, 100, 100];
    assert pops[..2] == [100, 100] && pops[..2][..1] == [100] && pops[..2][..1][..0] == [];
    var x := [[1, 0], [1, 0], [0, 1]];
    assert DistrictPop([], x, 0) == 0 && DistrictPop([], x, 1) == 0;
    assert DistrictPop([100], x, 0) == 100 && DistrictPop([100], x, 1) == 0;
    assert DistrictPop([100, 100], x, 0) == 200 && DistrictPop([100, 100], x, 1) == 0;
    assert DistrictPop(pops, x, 0) == 200 && DistrictPop(pops, x, 1) == 100;
    assert Total(pops) == 300;
    ObjectiveIgnoresDistricts(pops, 150.0, 2, x);
  }

  // ---------------------------------------------------------------------------
  // optimal_redistricting and the script

  /** Lines 58-105: build the problem, solve it, and on an optimal status
      return the table with its districts and the objective's value; on any
      other status return nothing at all. When the solver's table is 0/1 and
      meets the constraints, the plan is valid. */
  method OptimalRedistricting(table: seq<County>, adj: Table, ideal: real, tol: real, D: nat,
                              solve: Problem -> Solution)
    returns (result: Option<Plan>)
    ensures var pops := Populations(table);
            var problem := RedistrictingProblem(pops, adj, ideal, tol, D);
            var sol := solve(problem);
            && (result.None? <==> sol.status != Optimal)
            && (result.Some? ==> result.value == Plan(PlanRows(table, sol.x, D), Objective(pops, ideal, D, sol.x)))
            && (result.Some? && Binary(sol.x, |table|, D) && HoldsAll(problem.constraints, sol.x) ==>
                  ValidPlan(result.value, table, adj, ideal, tol, D))
  {
    var pops := Populations(table);
    var objective := ObjectiveTerms(pops, ideal, D);
    var constraints := GenerateConstraints(pops, adj, ideal, tol, D);
    var sol := solve(Problem(|table|, D, objective, constraints));
    if sol.status == Optimal {
      var districts := AssignDistricts(sol.x, |table|, D);
      var rows := seq(|table|, c requires 0 <= c < |table| => Row(table[c].name, table[c].pop, districts[c]));
      assert rows == PlanRows(table, sol.x, D);
      result := Some(Plan(rows, Eval(objective, sol.x)));
      if Binary(sol.x, |table|, D) && HoldsAll(constraints, sol.x) {
        FeasibleIffConstraintsHold(pops, adj, ideal, tol, D, sol.x);
        FeasiblePlanIsValid(table, adj, ideal, tol, D, sol.x);
      }
    } else {
      result := None;
    }
  }

  /** Lines 14-55 and 109: remove the hand-assigned counties, put the rest in
      name order, build the adjacency matrix over those names, compute the
      ideal population, and run the optimisation. The result never names a
      removed county, and its rows are in name order. */
  method Redistrict(counties: seq<County>, pairs: seq<Adjacency.Pair>, D: nat, tol: real,
                    solve: Problem -> Solution)
    returns (result: Option<Plan>)
    requires D > 0
    ensures var table := Prepare(counties);
            var pops := Populations(table);
            var adj := Adjacency.AdjacencyMatrix(Names(table), pairs);
            var ideal := Ideal(pops, D);
            var sol := solve(RedistrictingProblem(pops, adj, ideal, tol, D));
            result == if sol.status == Optimal
                      then Some(Plan(PlanRows(table, sol.x, D), Objective(pops, ideal, D, sol.x)))
                      else None
    ensures result.Some? ==>
      (forall i :: 0 <= i < |result.value.rows| ==> result.value.rows[i].name !in RemovedNames)
      && (forall i :: 0 <= i < |result.value.rows| - 1 ==>
            NameLe(result.value.rows[i].name, result.value.rows[i + 1].name))
  {
    var table := Prepare(counties);
    var names := Names(table);
    var matrix := Adjacency.BuildAdjacency(names, pairs);
    var adj := Adjacency.Rows(matrix);
    var pops := Populations(table);
    var ideal := Ideal(pops, D);
    result := OptimalRedistricting(table, adj, ideal, tol, D, solve);
    if result.Some? {
      PreparedPlanRows(counties, solve(RedistrictingProblem(pops, adj, ideal, tol, D)).x, D);
    }
  }

  /** Lines 107-110: the script's own run, with 6 districts and a tolerance
      of 0.15. */
  method RunScript(counties: seq<County>, pairs: seq<Adjacency.Pair>, solve: Problem -> Solution)
    returns (result: Option<Plan>)
    ensures var table := Prepare(counties);
            var pops := Populations(table);
            var adj := Adjacency.AdjacencyMatrix(Names(table), pairs);
            var problem := RedistrictingProblem(pops, adj, Ideal(pops, NumDistricts), Tolerance, NumDistricts);
            var sol := solve(problem);
            && (result.None? <==> sol.status != Optimal)
            && (result.Some? ==> result.value.rows == PlanRows(table, sol.x, NumDistricts)
                                 && result.value.objective == Objective(pops, Ideal(pops, NumDistricts), NumDistricts, sol.x))
  {
    result := Redistrict(counties, pairs, NumDistricts, Tolerance, solve);
  }
}
