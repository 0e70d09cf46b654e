/** The integer program of `optimal_redistricting`: one 0/1 variable per
    (county, district), the objective, and the three families of constraints
    (exactly one district per county, population bounds per district, and the
    coupling of neighbouring counties). Counties are the rows of the prepared
    table, numbered 0 .. n-1; districts are numbered 0 .. D-1 here and
    reported as 1 .. D. */
module Formulation {
  import Adjacency

  /** A table of numbers indexed by county then by district (the solver's
      variable values), or by county and county (the adjacency matrix). */
  type Table = seq<seq<int>>

  /** Cell (i, j) of a table; a cell the table does not hold reads as 0. */
  function At(t: Table, i: int, j: int): int
  {
    if 0 <= i < |t| && 0 <= j < |t[i]| then t[i][j] else 0
  }

  // ---------------------------------------------------------------------------
  // Populations

  /** The total population of the counties (line 52). */
  function Total(pops: seq<nat>): (r: nat)
    ensures forall i :: 0 <= i < |pops| ==> pops[i] <= r
  {
    if |pops| == 0 then 0 else Total(pops[..|pops| - 1]) + pops[|pops| - 1]
  }

  /** The ideal district population, total / D, as an exact quotient (line 55). */
  function Ideal(pops: seq<nat>, D: nat): (r: real)
    requires D > 0
    ensures r * D as real == Total(pops) as real
    ensures r >= 0.0
  {
    Total(pops) as real / D as real
  }

  /** |pop - ideal|, the cost coefficient of a county (line 66). */
  function Deviation(pop: nat, ideal: real): (r: real)
    ensures r >= 0.0 && (r == pop as real - ideal || r == ideal - pop as real)
  {
    if pop as real >= ideal then pop as real - ideal else ideal - pop as real
  }

  /** The sum of the first k values of county c's row: how many districts it is put in. */
  function RowSum(x: Table, c: nat, k: nat): int
  {
    if k == 0 then 0 else RowSum(x, c, k - 1) + At(x, c, k - 1)
  }

  /** The population assigned to district j by x, over the counties of `pops`. */
  function DistrictPop(pops: seq<nat>, x: Table, j: nat): int
  {
    if |pops| == 0 then 0
    else DistrictPop(pops[..|pops| - 1], x, j) + pops[|pops| - 1] * At(x, |pops| - 1, j)
  }

  /** Σ over the counties of |pop - ideal|: what every exactly-one assignment costs. */
  function TotalDeviation(pops: seq<nat>, ideal: real): real
  {
    if |pops| == 0 then 0.0
    else TotalDeviation(pops[..|pops| - 1], ideal) + Deviation(pops[|pops| - 1], ideal)
  }

  // ---------------------------------------------------------------------------
  // What a feasible table is

  /** Every variable takes the value 0 or 1 (`cat='Binary'`, line 62). */
  predicate Binary(x: Table, n: nat, D: nat)
  {
    forall c, j :: 0 <= c < n && 0 <= j < D ==> At(x, c, j) == 0 || At(x, c, j) == 1
  }

  /** Each county's row sums to one (line 71). */
  predicate ExactlyOne(x: Table, n: nat, D: nat)
  {
    forall c :: 0 <= c < n ==> RowSum(x, c, D) == 1
  }

  /** Each district's population lies in [ideal·(1-tol), ideal·(1+tol)] (lines 73-77). */
  predicate Balanced(pops: seq<nat>, x: Table, ideal: real, tol: real, D: nat)
  {
    forall j :: 0 <= j < D ==>
      ideal * (1.0 - tol) <= DistrictPop(pops, x, j) as real <= ideal * (1.0 + tol)
  }

  /** Counties u and v take the same value in each of the first k district columns. */
  predicate ColumnsAgree(x: Table, u: nat, v: nat, k: nat)
  {
    forall d :: 0 <= d < k ==> At(x, u, d) == At(x, v, d)
  }

  /** County u agrees, in every district column, with each distinct county below k marked adjacent to it. */
  predicate CoupledFrom(adj: Table, x: Table, D: nat, u: nat, k: nat)
  {
    forall v :: 0 <= v < k && u != v && At(adj, u, v) == 1 ==> ColumnsAgree(x, u, v, D)
  }

  /** Two distinct counties marked adjacent take the same value in every district's column. */
  predicate Coupled(adj: Table, x: Table, n: nat, D: nat)
  {
    forall u :: 0 <= u < n ==> CoupledFrom(adj, x, D, u, n)
  }

  /** County c's row holds a 1 in exactly one of the first k districts. */
  predicate InOneDistrict(x: Table, c: nat, k: nat)
  {
    exists j :: 0 <= j < k && At(x, c, j) == 1 && forall i :: 0 <= i < k && At(x, c, i) == 1 ==> i == j
  }

  /** A table the solver may report as a solution. In such a table every
      county is put in exactly one district. */
  predicate Feasible(pops: seq<nat>, adj: Table, ideal: real, tol: real, D: nat, x: Table)
    ensures Feasible(pops, adj, ideal, tol, D, x) ==> forall c :: 0 <= c < |pops| ==> InOneDistrict(x, c, D)
  {
    EveryCountyInOneDistrict(x, |pops|, D);
    Binary(x, |pops|, D) && ExactlyOne(x, |pops|, D) && Balanced(pops, x, ideal, tol, D)
    && Coupled(adj, x, |pops|, D)
  }

  /** A 0/1 row whose sum is 0 holds only zeros; a 0/1 row's sum is never negative. */
  lemma {:induction false} BinaryRowSum(x: Table, c: nat, k: nat)
    requires forall j :: 0 <= j < k ==> At(x, c, j) == 0 || At(x, c, j) == 1
    ensures RowSum(x, c, k) >= 0
    ensures RowSum(x, c, k) == 0 ==> forall j :: 0 <= j < k ==> At(x, c, j) == 0
  {
    if k > 0 {
      BinaryRowSum(x, c, k - 1);
    }
  }

  /** A 0/1 row that sums to one holds a single 1. */
  lemma {:induction false} OneHotRow(x: Table, c: nat, k: nat)
    requires forall j :: 0 <= j < k ==> At(x, c, j) == 0 || At(x, c, j) == 1
    requires RowSum(x, c, k) == 1
    ensures InOneDistrict(x, c, k)
  {
    if At(x, c, k - 1) == 1 {
      BinaryRowSum(x, c, k - 1);
      assert forall i :: 0 <= i < k && At(x, c, i) == 1 ==> i == k - 1;
    } else {
      OneHotRow(x, c, k - 1);
      var j :| 0 <= j < k - 1 && At(x, c, j) == 1 && forall i :: 0 <= i < k - 1 && At(x, c, i) == 1 ==> i == j;
      assert forall i :: 0 <= i < k && At(x, c, i) == 1 ==> i == j;
    }
  }

  /** Under 0/1 values and exactly-one, every county is in exactly one district. */
  lemma EveryCountyInOneDistrict(x: Table, n: nat, D: nat)
    ensures Binary(x, n, D) && ExactlyOne(x, n, D) ==> forall c :: 0 <= c < n ==> InOneDistrict(x, c, D)
  {
    if Binary(x, n, D) && ExactlyOne(x, n, D) {
      forall c | 0 <= c < n
        ensures InOneDistrict(x, c, D)
      {
        OneHotRow(x, c, D);
      }
    }
  }

  // ---------------------------------------------------------------------------
  // The linear program handed to the solver

  /** The variable County_District_<county>_<district>. */
  datatype Var = Var(county: nat, district: nat)

  /** coef · variable */
  datatype Term = Term(coef: real, v: Var)

  datatype Relation = AtMost | AtLeast | EqualTo

  /** Σ lhs  (<= | >= | ==)  rhs */
  datatype Constraint = Constraint(lhs: seq<Term>, rel: Relation, rhs: real)

  /** The minimisation problem: a grid of binary variables x[c][j] for
      c < counties and j < districts (line 62, `cat='Binary'`), an objective
      to minimise and its constraints. */
  datatype Problem = Problem(counties: nat, districts: nat, objective: seq<Term>, constraints: seq<Constraint>)

  /** Every term of ts names a variable of the n × D grid of line 62. */
  predicate OnGrid(ts: seq<Term>, n: nat, D: nat)
  {
    forall t :: t in ts ==> t.v.county < n && t.v.district < D
  }

  /** Every constraint of cs speaks only of variables of the n × D grid. */
  predicate AllOnGrid(cs: seq<Constraint>, n: nat, D: nat)
  {
    forall k :: 0 <= k < |cs| ==> OnGrid(cs[k].lhs, n, D)
  }

  /** The value of a linear expression under the variable values x. */
  function Eval(ts: seq<Term>, x: Table): real
  {
    if |ts| == 0 then 0.0
    else
      var t := ts[|ts| - 1];
      Eval(ts[..|ts| - 1], x) + t.coef * At(x, t.v.county, t.v.district) as real
  }

  predicate Holds(k: Constraint, x: Table)
  {
    match k.rel
    case AtMost => Eval(k.lhs, x) <= k.rhs
    case AtLeast => Eval(k.lhs, x) >= k.rhs
    case EqualTo => Eval(k.lhs, x) == k.rhs
  }

  predicate HoldsAll(cs: seq<Constraint>, x: Table)
  {
    |cs| == 0 || (HoldsAll(cs[..|cs| - 1], x) && Holds(cs[|cs| - 1], x))
  }

  /** [coef · x[c][j] for j in range(D)] */
  function DistrictTerms(c: nat, coef: real, D: nat): seq<Term>
  {
    seq(D, j requires 0 <= j < D => Term(coef, Var(c, j)))
  }

  /** [pop[c] · x[c][j] for each county c] */
  function CountyTerms(pops: seq<nat>, j: nat): seq<Term>
  {
    seq(|pops|, c requires 0 <= c < |pops| => Term(pops[c] as real, Var(c, j)))
  }

  /** The objective of lines 65-67: |pop - ideal| · x[c][j] for every county c, then every district j. */
  function ObjectiveTerms(pops: seq<nat>, ideal: real, D: nat): (r: seq<Term>)
    ensures |r| == |pops| * D
    ensures forall t :: t in r ==>
      t.v.county < |pops| && t.v.district < D && t.coef == Deviation(pops[t.v.county], ideal)
  {
    if |pops| == 0 then []
    else ObjectiveTerms(pops[..|pops| - 1], ideal, D)
         + DistrictTerms(|pops| - 1, Deviation(pops[|pops| - 1], ideal), D)
  }

  /** The objective's value for the variable values x. */
  function Objective(pops: seq<nat>, ideal: real, D: nat, x: Table): (r: real)
    ensures Binary(x, |pops|, D) ==> r >= 0.0
  {
    EvalNonNegative(ObjectiveTerms(pops, ideal, D), x, |pops|, D);
    Eval(ObjectiveTerms(pops, ideal, D), x)
  }

  /** The position of the term for x[c][j] in a county-major list with D terms per county. */
  function Slot(c: nat, j: nat, D: nat): nat
  {
    c * D + j
  }

  /** Below county m, every slot lies before m · D. */
  lemma SlotBelow(c: nat, j: nat, m: nat, D: nat)
    requires c < m && j < D
    ensures Slot(c, j, D) < m * D
  {
    assert c * D + D == (c + 1) * D;
    assert (c + 1) * D <= m * D;
  }

  /** The objective of lines 65-67 lists, county by county and district by
      district, exactly the term |pop_c - ideal| · x[c][j] for every pair. */
  lemma {:induction false} ObjectiveTermsLayout(pops: seq<nat>, ideal: real, D: nat)
    ensures forall c, j :: 0 <= c < |pops| && 0 <= j < D ==>
      Slot(c, j, D) < |ObjectiveTerms(pops, ideal, D)|
      && ObjectiveTerms(pops, ideal, D)[Slot(c, j, D)] == Term(Deviation(pops[c], ideal), Var(c, j))
  {
    if |pops| > 0 {
      var n := |pops|;
      var front := ObjectiveTerms(pops[..n - 1], ideal, D);
      var last := DistrictTerms(n - 1, Deviation(pops[n - 1], ideal), D);
      ObjectiveTermsLayout(pops[..n - 1], ideal, D);
      assert ObjectiveTerms(pops, ideal, D) == front + last;
      forall c, j | 0 <= c < n && 0 <= j < D
        ensures Slot(c, j, D) < |ObjectiveTerms(pops, ideal, D)|
          && ObjectiveTerms(pops, ideal, D)[Slot(c, j, D)] == Term(Deviation(pops[c], ideal), Var(c, j))
      {
        SlotBelow(c, j, n, D);
        if c < n - 1 {
          SlotBelow(c, j, n - 1, D);
          assert pops[..n - 1][c] == pops[c];
          assert (front + last)[Slot(c, j, D)] == front[Slot(c, j, D)];
        } else {
          assert Slot(c, j, D) == |front| + j;
          assert (front + last)[Slot(c, j, D)] == last[j];
        }
      }
    }
  }

  /** Non-negative coefficients over 0/1 variables of the grid give a non-negative value. */
  lemma {:induction false} EvalNonNegative(ts: seq<Term>, x: Table, n: nat, D: nat)
    requires forall t :: t in ts ==> t.v.county < n && t.v.district < D && t.coef >= 0.0
    ensures Binary(x, n, D) ==> Eval(ts, x) >= 0.0
  {
    if |ts| > 0 && Binary(x, n, D) {
      var t := ts[|ts| - 1];
      assert t in ts;
      assert forall s :: s in ts[..|ts| - 1] ==> s in ts;
      EvalNonNegative(ts[..|ts| - 1], x, n, D);
      assert At(x, t.v.county, t.v.district) == 0 || At(x, t.v.county, t.v.district) == 1;
    }
  }

  /** Line 71 for the first k counties: Σ_j x[c][j] == 1. */
  function ExactlyOneRows(k: nat, D: nat): seq<Constraint>
  {
    if k == 0 then []
    else ExactlyOneRows(k - 1, D) + [Constraint(DistrictTerms(k - 1, 1.0, D), EqualTo, 1.0)]
  }

  /** Lines 76-77 for the first k districts: the lower bound, then the upper bound. */
  function BoundRows(pops: seq<nat>, ideal: real, tol: real, k: nat): seq<Constraint>
  {
    if k == 0 then []
    else BoundRows(pops, ideal, tol, k - 1)
         + [Constraint(CountyTerms(pops, k - 1), AtLeast, ideal * (1.0 - tol)),
            Constraint(CountyTerms(pops, k - 1), AtMost, ideal * (1.0 + tol))]
  }

  /** Lines 84-85 for counties u, v and the first k districts:
      x[u][d] - x[v][d] <= 0 and x[v][d] - x[u][d] <= 0. */
  function PairRows(u: nat, v: nat, k: nat): seq<Constraint>
  {
    if k == 0 then []
    else PairRows(u, v, k - 1)
         + [Constraint([Term(1.0, Var(u, k - 1)), Term(-1.0, Var(v, k - 1))], AtMost, 0.0),
            Constraint([Term(1.0, Var(v, k - 1)), Term(-1.0, Var(u, k - 1))], AtMost, 0.0)]
  }

  /** Lines 81-85 for county u and the first k counties v. */
  function CouplingRow(adj: Table, D: nat, u: nat, k: nat): seq<Constraint>
  {
    if k == 0 then []
    else CouplingRow(adj, D, u, k - 1)
         + (if u != k - 1 && At(adj, u, k - 1) == 1 then PairRows(u, k - 1, D) else [])
  }

  /** Lines 80-85 for the first k counties u, each against all n counties. */
  function CouplingRows(adj: Table, n: nat, D: nat, k: nat): seq<Constraint>
  {
    if k == 0 then [] else CouplingRows(adj, n, D, k - 1) + CouplingRow(adj, D, k - 1, n)
  }

  /** Every constraint of lines 70-85, in the order the loops add them. */
  function Constraints(pops: seq<nat>, adj: Table, ideal: real, tol: real, D: nat): (r: seq<Constraint>)
    ensures AllOnGrid(r, |pops|, D)
  {
    var n := |pops|;
    ExactlyOneRowsOnGrid(n, n, D);
    BoundRowsOnGrid(pops, ideal, tol, D, D);
    CouplingRowsOnGrid(adj, n, D, n);
    AllOnGridAppend(ExactlyOneRows(n, D), BoundRows(pops, ideal, tol, D), n, D);
    AllOnGridAppend(ExactlyOneRows(n, D) + BoundRows(pops, ideal, tol, D), CouplingRows(adj, n, D, n), n, D);
    ExactlyOneRows(n, D) + BoundRows(pops, ideal, tol, D) + CouplingRows(adj, n, D, n)
  }

  /** The whole problem of lines 60-85. */
  function RedistrictingProblem(pops: seq<nat>, adj: Table, ideal: real, tol: real, D: nat): (r: Problem)
    ensures r.counties == |pops| && r.districts == D
    ensures OnGrid(r.objective, r.counties, r.districts) && AllOnGrid(r.constraints, r.counties, r.districts)
  {
    Problem(|pops|, D, ObjectiveTerms(pops, ideal, D), Constraints(pops, adj, ideal, tol, D))
  }

  // ---------------------------------------------------------------------------
  // Every constraint speaks of the declared variables only

  lemma AllOnGridAppend(a: seq<Constraint>, b: seq<Constraint>, n: nat, D: nat)
    requires AllOnGrid(a, n, D) && AllOnGrid(b, n, D)
    ensures AllOnGrid(a + b, n, D)
  {
    forall k | 0 <= k < |a + b|
      ensures OnGrid((a + b)[k].lhs, n, D)
    {
      if k < |a| {
        assert (a + b)[k] == a[k];
      } else {
        assert (a + b)[k] == b[k - |a|];
      }
    }
  }

  lemma {:induction false} ExactlyOneRowsOnGrid(k: nat, n: nat, D: nat)
    requires k <= n
    ensures AllOnGrid(ExactlyOneRows(k, D), n, D)
  {
    if k > 0 {
      ExactlyOneRowsOnGrid(k - 1, n, D);
      var row := Constraint(DistrictTerms(k - 1, 1.0, D), EqualTo, 1.0);
      assert OnGrid(row.lhs, n, D);
      AllOnGridAppend(ExactlyOneRows(k - 1, D), [row], n, D);
    }
  }

  lemma {:induction false} BoundRowsOnGrid(pops: seq<nat>, ideal: real, tol: real, k: nat, D: nat)
    requires k <= D
    ensures AllOnGrid(BoundRows(pops, ideal, tol, k), |pops|, D)
  {
    if k > 0 {
      BoundRowsOnGrid(pops, ideal, tol, k - 1, D);
      var rows := [Constraint(CountyTerms(pops, k - 1), AtLeast, ideal * (1.0 - tol)),
                   Constraint(CountyTerms(pops, k - 1), AtMost, ideal * (1.0 + tol))];
      assert OnGrid(CountyTerms(pops, k - 1), |pops|, D);
      AllOnGridAppend(BoundRows(pops, ideal, tol, k - 1), rows, |pops|, D);
    }
  }

  lemma {:induction false} PairRowsOnGrid(u: nat, v: nat, k: nat, n: nat, D: nat)
    requires u < n && v < n && k <= D
    ensures AllOnGrid(PairRows(u, v, k), n, D)
  {
    if k > 0 {
      PairRowsOnGrid(u, v, k - 1, n, D);
      var rows := [Constraint([Term(1.0, Var(u, k - 1)), Term(-1.0, Var(v, k - 1))], AtMost, 0.0),
                   Constraint([Term(1.0, Var(v, k - 1)), Term(-1.0, Var(u, k - 1))], AtMost, 0.0)];
      AllOnGridAppend(PairRows(u, v, k - 1), rows, n, D);
    }
  }

  lemma {:induction false} CouplingRowOnGrid(adj: Table, D: nat, u: nat, k: nat, n: nat)
    requires u < n && k <= n
    ensures AllOnGrid(CouplingRow(adj, D, u, k), n, D)
  {
    if k > 0 {
      var front := CouplingRow(adj, D, u, k - 1);
      CouplingRowOnGrid(adj, D, u, k - 1, n);
      if u != k - 1 && At(adj, u, k - 1) == 1 {
        assert AllOnGrid(PairRows(u, k - 1, D), n, D) by { PairRowsOnGrid(u, k - 1, D, n, D); }
        AllOnGridAppend(front, PairRows(u, k - 1, D), n, D);
      } else {
        assert CouplingRow(adj, D, u, k) == front + [];
        assert front + [] == front;
      }
    }
  }

  lemma {:induction false} CouplingRowsOnGrid(adj: Table, n: nat, D: nat, k: nat)
    requires k <= n
    ensures AllOnGrid(CouplingRows(adj, n, D, k), n, D)
  {
    if k > 0 {
      var front := CouplingRows(adj, n, D, k - 1);
      var row := CouplingRow(adj, D, k - 1, n);
      assert AllOnGrid(front, n, D) by { CouplingRowsOnGrid(adj, n, D, k - 1); }
      assert AllOnGrid(row, n, D) by { CouplingRowOnGrid(adj, D, k - 1, n, n); }
      assert CouplingRows(adj, n, D, k) == front + row;
      AllOnGridAppend(front, row, n, D);
    }
  }

  // ---------------------------------------------------------------------------
  // The constraints say what Feasible says

  lemma {:induction false} EvalAppend(a: seq<Term>, b: seq<Term>, x: Table)
    ensures Eval(a + b, x) == Eval(a, x) + Eval(b, x)
    decreases |b|
  {
    if |b| == 0 {
      assert a + b == a;
    } else {
      assert (a + b)[..|a + b| - 1] == a + b[..|b| - 1];
      assert (a + b)[|a + b| - 1] == b[|b| - 1];
      EvalAppend(a, b[..|b| - 1], x);
    }
  }

  lemma {:induction false} EvalDistrictTerms(x: Table, c: nat, coef: real, k: nat)
    ensures Eval(DistrictTerms(c, coef, k), x) == coef * RowSum(x, c, k) as real
  {
    if k > 0 {
      assert DistrictTerms(c, coef, k)[..k - 1] == DistrictTerms(c, coef, k - 1);
      EvalDistrictTerms(x, c, coef, k - 1);
    }
  }

  lemma {:induction false} EvalCountyTerms(pops: seq<nat>, x: Table, j: nat)
    ensures Eval(CountyTerms(pops, j), x) == DistrictPop(pops, x, j) as real
  {
    if |pops| > 0 {
      var n := |pops|;
      assert CountyTerms(pops, j)[..n - 1] == CountyTerms(pops[..n - 1], j);
      EvalCountyTerms(pops[..n - 1], x, j);
      assert (pops[n - 1] * At(x, n - 1, j)) as real == pops[n - 1] as real * At(x, n - 1, j) as real;
    }
  }

  /** The constraints hold together exactly when each of them holds. */
  lemma {:induction false} HoldsAllMeaning(cs: seq<Constraint>, x: Table)
    ensures HoldsAll(cs, x) <==> forall i :: 0 <= i < |cs| ==> Holds(cs[i], x)
  {
    if |cs| > 0 {
      var front := cs[..|cs| - 1];
      HoldsAllMeaning(front, x);
      assert forall i :: 0 <= i < |front| ==> front[i] == cs[i];
    }
  }

  lemma {:induction false} HoldsAllAppend(a: seq<Constraint>, b: seq<Constraint>, x: Table)
    ensures HoldsAll(a + b, x) <==> HoldsAll(a, x) && HoldsAll(b, x)
  {
    if |b| == 0 {
      assert a + b == a;
    } else {
      var front := b[..|b| - 1];
      HoldsAllAppend(a, front, x);
      assert (a + b)[..|a + b| - 1] == a + front;
      assert (a + b)[|a + b| - 1] == b[|b| - 1];
    }
  }

  lemma HoldsAllTwo(p: Constraint, q: Constraint, x: Table)
    ensures HoldsAll([p, q], x) <==> Holds(p, x) && Holds(q, x)
  {
    assert [p, q][..1] == [p];
    assert HoldsAll([p], x) <==> Holds(p, x) by {
      assert [p][..0] == [];
    }
  }

  lemma {:induction false} ExactlyOneRowsMeaning(x: Table, k: nat, D: nat)
    ensures HoldsAll(ExactlyOneRows(k, D), x) <==> ExactlyOne(x, k, D)
  {
    if k > 0 {
      var row := Constraint(DistrictTerms(k - 1, 1.0, D), EqualTo, 1.0);
      ExactlyOneRowsMeaning(x, k - 1, D);
      HoldsAllAppend(ExactlyOneRows(k - 1, D), [row], x);
      EvalDistrictTerms(x, k - 1, 1.0, D);
      assert HoldsAll([row], x) <==> RowSum(x, k - 1, D) == 1 by {
        assert [row][0] == row;
      }
      assert ExactlyOne(x, k, D) <==> ExactlyOne(x, k - 1, D) && RowSum(x, k - 1, D) == 1;
    }
  }

  lemma {:induction false} BoundRowsMeaning(pops: seq<nat>, x: Table, ideal: real, tol: real, k: nat)
    ensures HoldsAll(BoundRows(pops, ideal, tol, k), x) <==> Balanced(pops, x, ideal, tol, k)
  {
    if k > 0 {
      BoundRowsMeaning(pops, x, ideal, tol, k - 1);
      var last := [Constraint(CountyTerms(pops, k - 1), AtLeast, ideal * (1.0 - tol)),
                   Constraint(CountyTerms(pops, k - 1), AtMost, ideal * (1.0 + tol))];
      HoldsAllAppend(BoundRows(pops, ideal, tol, k - 1), last, x);
      EvalCountyTerms(pops, x, k - 1);
      HoldsAllTwo(last[0], last[1], x);
      assert Balanced(pops, x, ideal, tol, k) <==>
        Balanced(pops, x, ideal, tol, k - 1) &&
        ideal * (1.0 - tol) <= DistrictPop(pops, x, k - 1) as real <= ideal * (1.0 + tol);
    }
  }

  /** The two inequalities of lines 84-85 hold for every district below k
      exactly when u's and v's columns agree there. */
  lemma {:induction false} PairRowsForceEqual(u: nat, v: nat, x: Table, k: nat)
    ensures HoldsAll(PairRows(u, v, k), x) <==> ColumnsAgree(x, u, v, k)
  {
    if k > 0 {
      var d := k - 1;
      var uv := Constraint([Term(1.0, Var(u, d)), Term(-1.0, Var(v, d))], AtMost, 0.0);
      var vu := Constraint([Term(1.0, Var(v, d)), Term(-1.0, Var(u, d))], AtMost, 0.0);
      PairRowsForceEqual(u, v, x, k - 1);
      HoldsAllAppend(PairRows(u, v, k - 1), [uv, vu], x);
      EvalDifference(u, v, d, x);
      EvalDifference(v, u, d, x);
      HoldsAllTwo(uv, vu, x);
      assert ColumnsAgree(x, u, v, k) <==> ColumnsAgree(x, u, v, k - 1) && At(x, u, d) == At(x, v, d);
    }
  }

  /** The left-hand side x[u][d] - x[v][d] of line 84. */
  lemma EvalDifference(u: nat, v: nat, d: nat, x: Table)
    ensures Eval([Term(1.0, Var(u, d)), Term(-1.0, Var(v, d))], x) == At(x, u, d) as real - At(x, v, d) as real
  {
    var ts := [Term(1.0, Var(u, d)), Term(-1.0, Var(v, d))];
    var first := [Term(1.0, Var(u, d))];
    assert ts[..1] == first;
    assert first[..0] == [];
    assert Eval(first, x) == 1.0 * At(x, u, d) as real;
    assert Eval(ts, x) == Eval(first, x) + -1.0 * At(x, v, d) as real;
  }

  lemma {:induction false} CouplingRowMeaning(adj: Table, x: Table, D: nat, u: nat, k: nat)
    ensures HoldsAll(CouplingRow(adj, D, u, k), x) <==> CoupledFrom(adj, x, D, u, k)
  {
    if k > 0 {
      CouplingRowMeaning(adj, x, D, u, k - 1);
      CouplingRowMeaningStep(adj, x, D, u, k);
    }
  }

  /** The induction step of CouplingRowMeaning: candidate neighbour k - 1. */
  lemma CouplingRowMeaningStep(adj: Table, x: Table, D: nat, u: nat, k: nat)
    requires k > 0
    requires HoldsAll(CouplingRow(adj, D, u, k - 1), x) == CoupledFrom(adj, x, D, u, k - 1)
    ensures HoldsAll(CouplingRow(adj, D, u, k), x) == CoupledFrom(adj, x, D, u, k)
  {
    var v := k - 1;
    var linked := u != v && At(adj, u, v) == 1;
    var tail := if linked then PairRows(u, v, D) else [];
    var whole := HoldsAll(CouplingRow(adj, D, u, k), x);
    var done := HoldsAll(CouplingRow(adj, D, u, v), x);
    var last := HoldsAll(tail, x);
    assert whole == (done && last) by {
      assert CouplingRow(adj, D, u, k) == CouplingRow(adj, D, u, v) + tail;
      HoldsAllAppend(CouplingRow(adj, D, u, v), tail, x);
    }
    assert last == (linked ==> ColumnsAgree(x, u, v, D)) by {
      if linked { PairRowsForceEqual(u, v, x, D); }
    }
    assert CoupledFrom(adj, x, D, u, k) == (CoupledFrom(adj, x, D, u, v) && (linked ==> ColumnsAgree(x, u, v, D))) by {
      CoupledFromStep(adj, x, D, u, k);
    }
  }

  /** Adding candidate neighbour k - 1 to county u's coupling. */
  lemma CoupledFromStep(adj: Table, x: Table, D: nat, u: nat, k: nat)
    requires k > 0
    ensures CoupledFrom(adj, x, D, u, k) <==>
      CoupledFrom(adj, x, D, u, k - 1) && (u != k - 1 && At(adj, u, k - 1) == 1 ==> ColumnsAgree(x, u, k - 1, D))
  {
  }

  /** Each of the first k counties agrees with all its marked neighbours among the n counties. */
  predicate CoupledBelow(adj: Table, x: Table, n: nat, D: nat, k: nat)
  {
    k == 0 || (CoupledBelow(adj, x, n, D, k - 1) && CoupledFrom(adj, x, D, k - 1, n))
  }

  lemma {:induction false} CoupledBelowMeaning(adj: Table, x: Table, n: nat, D: nat, k: nat)
    ensures CoupledBelow(adj, x, n, D, k) <==> forall u :: 0 <= u < k ==> CoupledFrom(adj, x, D, u, n)
  {
    if k > 0 {
      CoupledBelowMeaning(adj, x, n, D, k - 1);
    }
  }

  /** The coupling constraints of the first k counties hold exactly when each
      of those counties agrees with all its marked neighbours. */
  lemma {:induction false} CouplingRowsMeaning(adj: Table, x: Table, n: nat, D: nat, k: nat)
    requires k <= n
    ensures HoldsAll(CouplingRows(adj, n, D, k), x) <==> CoupledBelow(adj, x, n, D, k)
  {
    if k > 0 {
      var before := HoldsAll(CouplingRows(adj, n, D, k - 1), x);
      assert before == CoupledBelow(adj, x, n, D, k - 1) by { CouplingRowsMeaning(adj, x, n, D, k - 1); }
      assert HoldsAll(CouplingRows(adj, n, D, k), x) == (before && CoupledFrom(adj, x, D, k - 1, n)) by {
        CouplingRowsMeaningStep(adj, x, n, D, k);
      }
    }
  }

  /** The induction step of CouplingRowsMeaning: the coupling rows of county k - 1. */
  lemma CouplingRowsMeaningStep(adj: Table, x: Table, n: nat, D: nat, k: nat)
    requires 0 < k <= n
    ensures HoldsAll(CouplingRows(adj, n, D, k), x) ==
      (HoldsAll(CouplingRows(adj, n, D, k - 1), x) && CoupledFrom(adj, x, D, k - 1, n))
  {
    var row := HoldsAll(CouplingRow(adj, D, k - 1, n), x);
    assert row == CoupledFrom(adj, x, D, k - 1, n) by { CouplingRowMeaning(adj, x, D, k - 1, n); }
    HoldsAllCouplingRows(adj, x, n, D, k);
  }

  /** The coupling constraints of the first k counties split at county k - 1. */
  lemma HoldsAllCouplingRows(adj: Table, x: Table, n: nat, D: nat, k: nat)
    requires k > 0
    ensures HoldsAll(CouplingRows(adj, n, D, k), x) <==>
      HoldsAll(CouplingRows(adj, n, D, k - 1), x) && HoldsAll(CouplingRow(adj, D, k - 1, n), x)
  {
    HoldsAllAppend(CouplingRows(adj, n, D, k - 1), CouplingRow(adj, D, k - 1, n), x);
  }

  /** The constraints of lines 70-85 hold of a table exactly when it gives
      every county one district, keeps every district within the bounds, and
      gives neighbouring counties the same district column. */
  lemma ConstraintsMeaning(pops: seq<nat>, adj: Table, ideal: real, tol: real, D: nat, x: Table)
    ensures HoldsAll(Constraints(pops, adj, ideal, tol, D), x) <==>
      ExactlyOne(x, |pops|, D) && Balanced(pops, x, ideal, tol, D) && Coupled(adj, x, |pops|, D)
  {
    var n := |pops|;
    HoldsAllAppend(ExactlyOneRows(n, D) + BoundRows(pops, ideal, tol, D), CouplingRows(adj, n, D, n), x);
    HoldsAllAppend(ExactlyOneRows(n, D), BoundRows(pops, ideal, tol, D), x);
    ExactlyOneRowsMeaning(x, n, D);
    BoundRowsMeaning(pops, x, ideal, tol, D);
    CouplingRowsMeaning(adj, x, n, D, n);
    CoupledBelowMeaning(adj, x, n, D, n);
  }

  /** A table is feasible exactly when its values are 0/1 and it meets every
      generated constraint. */
  lemma FeasibleIffConstraintsHold(pops: seq<nat>, adj: Table, ideal: real, tol: real, D: nat, x: Table)
    ensures Feasible(pops, adj, ideal, tol, D, x) <==>
      Binary(x, |pops|, D) && HoldsAll(Constraints(pops, adj, ideal, tol, D), x)
  {
    ConstraintsMeaning(pops, adj, ideal, tol, D, x);
  }

  // ---------------------------------------------------------------------------
  // Generating the constraints

  lemma AppendAssociative(a: seq<Constraint>, b: seq<Constraint>, c: seq<Constraint>)
    ensures (a + b) + c == a + (b + c)
  {
  }

  /** One more candidate neighbour v of county u, appended after `prefix`. */
  lemma CouplingRowUnfold(adj: Table, D: nat, u: nat, v: nat, prefix: seq<Constraint>)
    ensures prefix + CouplingRow(adj, D, u, v + 1) ==
      if u != v && At(adj, u, v) == 1 then prefix + CouplingRow(adj, D, u, v) + PairRows(u, v, D)
      else prefix + CouplingRow(adj, D, u, v)
  {
    var tail := if u != v && At(adj, u, v) == 1 then PairRows(u, v, D) else [];
    assert CouplingRow(adj, D, u, v + 1) == CouplingRow(adj, D, u, v) + tail;
    AppendAssociative(prefix, CouplingRow(adj, D, u, v), tail);
  }

  /** One more county u's coupling constraints, appended after `prefix`. */
  lemma CouplingRowsUnfold(adj: Table, n: nat, D: nat, u: nat, prefix: seq<Constraint>)
    ensures prefix + CouplingRows(adj, n, D, u + 1) == prefix + CouplingRows(adj, n, D, u) + CouplingRow(adj, D, u, n)
  {
    AppendAssociative(prefix, CouplingRows(adj, n, D, u), CouplingRow(adj, D, u, n));
  }

  /** Lines 84-85: the two inequalities tying counties u and v together in
      each district, appended to `prefix`. */
  method AddPair(u: nat, v: nat, D: nat, prefix: seq<Constraint>) returns (cs: seq<Constraint>)
    ensures cs == prefix + PairRows(u, v, D)
  {
    cs := prefix;
    for d := 0 to D
      invariant cs == prefix + PairRows(u, v, d)
    {
      cs := cs + [Constraint([Term(1.0, Var(u, d)), Term(-1.0, Var(v, d))], AtMost, 0.0),
                  Constraint([Term(1.0, Var(v, d)), Term(-1.0, Var(u, d))], AtMost, 0.0)];
    }
  }

  /** Lines 81-85 for one county u: the pair constraints with every other
      county marked adjacent to it, appended to `prefix`. */
  method AddNeighbours(adj: Table, n: nat, D: nat, u: nat, prefix: seq<Constraint>) returns (cs: seq<Constraint>)
    ensures cs == prefix + CouplingRow(adj, D, u, n)
  {
    cs := prefix;
    for v := 0 to n
      invariant cs == prefix + CouplingRow(adj, D, u, v)
    {
      CouplingRowUnfold(adj, D, u, v, prefix);
      if u != v && At(adj, u, v) == 1 {
        cs := AddPair(u, v, D, cs);
      }
    }
  }

  /** Lines 80-85: for every ordered pair of distinct counties marked
      adjacent, and every district, the two inequalities that tie their
      columns together, appended to `prefix`. */
  method AddCoupling(adj: Table, n: nat, D: nat, prefix: seq<Constraint>) returns (cs: seq<Constraint>)
    ensures cs == prefix + CouplingRows(adj, n, D, n)
  {
    cs := prefix;
    for u := 0 to n
      invariant cs == prefix + CouplingRows(adj, n, D, u)
    {
      CouplingRowsUnfold(adj, n, D, u, prefix);
      cs := AddNeighbours(adj, n, D, u, cs);
    }
  }

  /** Lines 70-85: the loops that add the constraints to the problem, in their order. */
  method GenerateConstraints(pops: seq<nat>, adj: Table, ideal: real, tol: real, D: nat)
    returns (cs: seq<Constraint>)
    ensures cs == Constraints(pops, adj, ideal, tol, D)
    ensures forall x :: HoldsAll(cs, x) <==>
      ExactlyOne(x, |pops|, D) && Balanced(pops, x, ideal, tol, D) && Coupled(adj, x, |pops|, D)
  {
    var n := |pops|;
    cs := [];
    for c := 0 to n
      invariant cs == ExactlyOneRows(c, D)
    {
      cs := cs + [Constraint(DistrictTerms(c, 1.0, D), EqualTo, 1.0)];
    }
    for j := 0 to D
      invariant cs == ExactlyOneRows(n, D) + BoundRows(pops, ideal, tol, j)
    {
      var lower := ideal * (1.0 - tol);
      var upper := ideal * (1.0 + tol);
      cs := cs + [Constraint(CountyTerms(pops, j), AtLeast, lower),
                  Constraint(CountyTerms(pops, j), AtMost, upper)];
      AppendAssociative(ExactlyOneRows(n, D), BoundRows(pops, ideal, tol, j),
        [Constraint(CountyTerms(pops, j), AtLeast, lower), Constraint(CountyTerms(pops, j), AtMost, upper)]);
    }
    cs := AddCoupling(adj, n, D, cs);
    forall x ensures HoldsAll(cs, x) <==>
      ExactlyOne(x, n, D) && Balanced(pops, x, ideal, tol, D) && Coupled(adj, x, n, D)
    {
      ConstraintsMeaning(pops, adj, ideal, tol, D, x);
    }
  }
}
