# Algorithmic redistricting: a Dafny model of the optimisation core

The modelled program splits the counties of a state (minus two counties that are assigned by hand) into `D` districts. It works as follows:

1. It removes King and Pierce counties from the county table and orders the remaining counties by name.
2. It builds a 0/1 adjacency matrix over those names from a raw list of border records.
3. It computes the ideal district population, which is the total population divided by `D`.
4. It sets up an integer program. There is one binary variable per (county, district) pair. The objective is Σ|pop − ideal|·x. Three families of constraints are added:
   - exactly one district per county;
   - per-district population bounds of `ideal·(1±tol)`;
   - a pair of inequalities for every adjacent pair of counties and every district.
5. It calls a MILP solver.
6. If the solver reports the status `Optimal`, it reads each county's district (1..D) out of the solver's 0/1 table. Any other status returns nothing.

The model has five modules:

- `Counties` (counties.dfy) covers removing the hand-assigned counties and sorting by name (Python's `<=` on strings).
- `Adjacency` (adjacency.dfy) covers the adjacency builder. It is an imperative nested loop over an `array2<int>`, proved against the spec function `AdjacencyMatrix`.
- `Formulation` (formulation.dfy) covers the linear program. It reads the adjacency matrix as a value, the table of its cells:
  - the variables, linear terms and constraints, and the objective;
  - the loops that generate the constraints, as a method proved against the spec function `Constraints`;
  - the semantic predicate `Feasible`;
  - the proof that the generated constraints hold exactly when the table gives every county one district, keeps every district within the bounds, and gives adjacent counties equal columns.
- `Feasibility` (feasibility.dfy) proves facts about every feasible table:
  - the objective is the same constant for every exactly-one table;
  - the district populations add up to the total;
  - a chain of adjacent counties lies in one district;
  - tolerance 0 is infeasible unless `D` divides the total;
  - a negative tolerance is infeasible.
- `Redistricting` (redistricting.dfy) covers the rest:
  - result extraction, as an imperative loop over an array proved against `LastDistrict`;
  - `optimal_redistricting`, with the solver as an oracle parameter `solve: Problem -> Solution`; the problem it receives declares the n×D grid of binary variables, the objective and the constraints;
  - the script pipeline;
  - the validity of any plan read from a feasible table.

The ideal population and the bounds are exact `real`s. Populations are `nat`. The solver's table is a `seq<seq<int>>`, read through `At`, and a cell it does not hold reads as 0.

Two consequences of the code worth noting:
- On any status other than Optimal, `optimal_redistricting` returns `(None, None)` and does not return the status; it only prints it (algorithmic_redistricting.py:104), and printing is left out.
- For three counties of 100 people and `D = 2` the ideal is 300/2 = 150 (`ExampleFeasible`).

## Model

| member | source | states |
|---|---|---|
| Counties.Remaining | algorithmic_redistricting.py:14-17 | Every row whose name is not "King County" or "Pierce County" is kept with its multiplicity. Every row with one of those names is dropped. |
| Counties.InsertByName | algorithmic_redistricting.py:29 | Inserting a county into a name-ordered table gives a name-ordered table with that county added (multiset). |
| Counties.SortByName | algorithmic_redistricting.py:29-35 | The result is a permutation of the input (multiset equality) and is in name order. |
| Counties.NameLeMeaning | algorithmic_redistricting.py:29 | `NameLe`, Python's `<=` on strings behind `sorted`, holds iff a is a prefix of b or, at the first position where they differ, a's character is the smaller. |
| Counties.NameLeTotal | algorithmic_redistricting.py:29 | Python's string order is total: for any two names, one is `<=` the other. |
| Counties.SortedByNamePairwise | algorithmic_redistricting.py:29 | In a name-ordered table, every earlier name is `<=` every later name, which uses transitivity. |
| Counties.Prepare | algorithmic_redistricting.py:14-35 | The prepared table is in name order and holds exactly the non-removed rows (multiset). None of its rows is King or Pierce County. |
| Adjacency.Listed | algorithmic_redistricting.py:43-46 | The scan is true iff some raw record equals (a, b) or (b, a) by exact string equality. |
| Adjacency.AdjacencyMatrix | algorithmic_redistricting.py:38-49 | The matrix is n×n with 0/1 cells. A cell is 1 iff the two names differ and some record pairs them in either order. The matrix is symmetric and its diagonal is 0. |
| Adjacency.BuildAdjacency | algorithmic_redistricting.py:38-49 | The nested loop leaves a freshly allocated n×n array whose rows equal `AdjacencyMatrix(names, pairs)`. |
| Adjacency.UnlistedNameIsIsolated | algorithmic_redistricting.py:40-49 | A name that no raw record mentions gets an all-zero row and column, and no error is raised. |
| Formulation.Total | algorithmic_redistricting.py:52 | The sum of the populations; no county's population exceeds it. |
| Formulation.Ideal | algorithmic_redistricting.py:52-55 | ideal · D equals the total population, and ideal ≥ 0. |
| Formulation.Deviation | algorithmic_redistricting.py:66 | The cost coefficient is non-negative and equals pop − ideal or ideal − pop. |
| Formulation.EvalDistrictTerms | algorithmic_redistricting.py:71 | Σ_j coef·x[c][j] over the first k districts equals coef times county c's row sum. |
| Formulation.EvalCountyTerms | algorithmic_redistricting.py:76-77 | Σ_c pop[c]·x[c][j] equals district j's population. |
| Formulation.ObjectiveTerms | algorithmic_redistricting.py:65-67 | The objective has \|pops\|·D terms; each names a declared variable x[c][j] and has coefficient \|pop_c − ideal\|. |
| Formulation.ObjectiveTermsLayout | algorithmic_redistricting.py:65-67 | Position c·D + j of the objective holds exactly \|pop_c − ideal\|·x[c][j], for every county c and district j; with the length \|pops\|·D these slots are all the terms, so every (county, district) variable appears, county by county. |
| Formulation.Objective | algorithmic_redistricting.py:65-67 | The objective's value Σ_c Σ_j \|pop_c − ideal\|·x[c][j]; it is non-negative on any 0/1 table. |
| Formulation.EvalNonNegative | algorithmic_redistricting.py:62-67 | A linear expression with non-negative coefficients over the 0/1 variables of the grid is non-negative. |
| Formulation.Constraints | algorithmic_redistricting.py:70-85 | The constraints of lines 70-85 in the order the loops add them; every one of them mentions only variables of the \|pops\|×D grid. |
| Formulation.CouplingRowsOnGrid | algorithmic_redistricting.py:80-85 | The coupling constraints mention only variables of the n×D grid (with ExactlyOneRowsOnGrid, BoundRowsOnGrid, PairRowsOnGrid and CouplingRowOnGrid for the other families). |
| Formulation.RedistrictingProblem | algorithmic_redistricting.py:58-85 | The problem handed to the solver declares the \|pops\|×D binary grid of line 62, and every objective and constraint term names a variable of that grid. |
| Formulation.BinaryRowSum | algorithmic_redistricting.py:62-71 | A 0/1 row has a non-negative sum, and a 0/1 row with sum 0 is all zeros. |
| Formulation.OneHotRow | algorithmic_redistricting.py:62-71 | A 0/1 row that sums to 1 holds a 1 in exactly one district. |
| Formulation.Feasible | algorithmic_redistricting.py:62-85 | A table the solver may report: 0/1, exactly-one, within the bounds and coupled; in it every county is in exactly one district. |
| Formulation.EvalDifference | algorithmic_redistricting.py:84-85 | The left-hand side x[u][d] − x[v][d] evaluates to the difference of the two cells. |
| Formulation.ExactlyOneRowsMeaning | algorithmic_redistricting.py:70-71 | The exactly-one constraints hold iff every county's row sums to 1. |
| Formulation.BoundRowsMeaning | algorithmic_redistricting.py:73-77 | The bound constraints hold iff every district's population lies in [ideal·(1−tol), ideal·(1+tol)], with the same bounds for every district. |
| Formulation.PairRowsForceEqual | algorithmic_redistricting.py:83-85 | The two inequalities x[u][d]−x[v][d] ≤ 0 and x[v][d]−x[u][d] ≤ 0 hold for every district iff x[u][d] == x[v][d] for every district. |
| Formulation.CouplingRowMeaning | algorithmic_redistricting.py:81-85 | The coupling constraints of county u hold iff u's columns equal those of every distinct county marked adjacent to u. |
| Formulation.CoupledBelowMeaning | algorithmic_redistricting.py:80-85 | Counting county by county, "the first k counties are coupled" holds iff each of them agrees with all its marked neighbours. |
| Formulation.CouplingRowsMeaning | algorithmic_redistricting.py:80-85 | The coupling constraints of the first k counties hold iff each of them, taken in turn, agrees with all its marked neighbours. |
| Formulation.HoldsAllMeaning | algorithmic_redistricting.py:70-85 | A list of constraints holds, read constraint by constraint, iff each of its constraints holds. |
| Formulation.ConstraintsMeaning | algorithmic_redistricting.py:70-85 | All generated constraints hold iff ExactlyOne, Balanced and Coupled all hold. |
| Formulation.FeasibleIffConstraintsHold | algorithmic_redistricting.py:62-85 | A table is feasible iff it is 0/1 (the variables' category) and meets every generated constraint. |
| Formulation.AddPair | algorithmic_redistricting.py:83-85 | The district loop appends exactly the two inequalities of each district, in order. |
| Formulation.AddNeighbours | algorithmic_redistricting.py:81-85 | The loop over county u's candidate neighbours appends exactly the pair constraints of each distinct county marked adjacent, in order. |
| Formulation.AddCoupling | algorithmic_redistricting.py:80-85 | The outer loop over counties appends exactly the coupling constraints of every county, in loop order. |
| Formulation.GenerateConstraints | algorithmic_redistricting.py:70-85 | The loops produce exactly `Constraints(...)`, in the source's order. For every table x, they hold iff x meets exactly-one, the bounds and the coupling. |
| Feasibility.ObjectiveLastCounty | algorithmic_redistricting.py:65-67 | A county whose row sums to 1 adds exactly \|pop − ideal\| to the objective. |
| Feasibility.ObjectiveIgnoresDistricts | algorithmic_redistricting.py:65-71 | Under exactly-one, the objective equals Σ_c \|pop_c − ideal\| whichever district each county gets. |
| Feasibility.DistrictsShareTotal | algorithmic_redistricting.py:71-77 | Under exactly-one, the D district populations add up to the total population. |
| Feasibility.PlacedPopBounds | algorithmic_redistricting.py:73-77 | Summing the per-district bounds: k lower bounds ≤ population of the first k districts ≤ k upper bounds. |
| Feasibility.TotalWithinDistrictBounds | algorithmic_redistricting.py:73-77 | In a feasible table, D·ideal·(1−tol) ≤ total ≤ D·ideal·(1+tol). |
| Feasibility.NegativeToleranceInfeasible | algorithmic_redistricting.py:52-77 | With ideal = total/D and a positive total, a negative tolerance admits no feasible table. |
| Feasibility.ZeroToleranceNeedsDivisibility | algorithmic_redistricting.py:52-77 | With ideal = total/D and tolerance 0, no table is feasible when D does not divide the total. |
| Feasibility.ChainSharesColumns | algorithmic_redistricting.py:80-85 | Under coupling, the two ends of a chain of adjacent distinct counties have equal district columns. |
| Feasibility.IsolatedCountyIsFree | algorithmic_redistricting.py:80-85 | A county with no marked neighbour is in no coupling constraint, so replacing its row keeps coupling. |
| Redistricting.PlanRows | algorithmic_redistricting.py:89-97 | The result table has one row per county, in table order, with its name and population; its district is at most D and is the initial 0 iff no value in its row is 1. |
| Redistricting.LastDistrict | algorithmic_redistricting.py:92-97 | The label is 0 iff no value in the row is 1. Otherwise the label is one more than the last district whose value is 1, and it is ≤ k. |
| Redistricting.AssignDistricts | algorithmic_redistricting.py:92-97 | The loop over an array that starts at 0 leaves, for each county, the label `LastDistrict(x, c, D)`. |
| Redistricting.OneHotDistrict | algorithmic_redistricting.py:71-97 | For a 0/1 row that sums to 1, the label is in 1..D and is never the initial 0. The value at district j is 1 iff j is the label's district. |
| Redistricting.AgreeingColumnsShareDistrict | algorithmic_redistricting.py:94-97 | Counties with equal columns get equal labels. |
| Redistricting.LabelledPopulation | algorithmic_redistricting.py:73-97 | In a 0/1 exactly-one table, the population of the rows labelled j+1 is district j's population. |
| Redistricting.FeasiblePlanIsValid | algorithmic_redistricting.py:62-102 | For a feasible table, the plan has the following properties: every county keeps its name and population; every county's label is in 1..D; adjacent counties share a label; every label's population is within the bounds; the objective equals Σ\|pop − ideal\|. |
| Redistricting.ChainSharesDistrict | algorithmic_redistricting.py:80-97 | In a plan from a feasible table, the two ends of a chain of adjacent counties get the same district. |
| Redistricting.PreparedPlanRows | algorithmic_redistricting.py:14-35 | The rows of a plan over the prepared table never name King or Pierce County, and they come in name order. |
| Redistricting.ExampleMatrix | algorithmic_redistricting.py:38-49 | With counties A, B, C and the single record (A, B), the matrix is [[0,1,0],[1,0,0],[0,0,0]]. |
| Redistricting.ExampleFeasible | algorithmic_redistricting.py:52-85 | With three counties of 100, D = 2 and tol = 0.5: the ideal is 150; {A,B} in district 1 with C in district 2 is feasible; the objective is 150. |
| Redistricting.OptimalRedistricting | algorithmic_redistricting.py:58-105 | The result is empty iff the oracle's status is not Optimal, so no partial assignment is ever returned. Otherwise the result is the table with `LastDistrict` labels and the objective at x. If x is 0/1 and meets the generated constraints, the plan is valid. |
| Redistricting.Redistrict | algorithmic_redistricting.py:14-110 | The pipeline runs on the prepared table, the matrix over its names and ideal = total/D. The result never names a removed county, and its rows are in name order. |
| Redistricting.RunScript | algorithmic_redistricting.py:107-110 | The script's run asks the solver for 6 districts with tolerance 0.15 over the prepared table; it returns nothing iff the status is not Optimal, and otherwise the plan rows read from the solver's table and the objective's value at that table. |

## Left out

- Input and output are not modelled: the spreadsheet load (lines 8-12), the HTTP fetch and tab-separated parse of the census adjacency file (lines 20-25), the CSV write (line 118) and every `print`. The model takes the county table and the raw border pairs as sequences.
- The CBC solve (line 87) is a foreign call. It is the parameter `solve`. The model proves nothing about optimality or the search. `prob.objective.value()` (line 102) is modelled as the objective evaluated at the reported table.
- Floating point is not modelled. The ideal and the bounds are exact reals. The test `varValue == 1` (line 96) is exact equality on the reported integer values. A variable the reported table does not hold reads as 0, as a `None` value never equals 1.
- Redistricting.OptimalRedistricting: the reported objective also reads a variable the table does not hold as 0. In the source, `prob.objective.value()` (line 102) of an expression with a `None` variable is `None`, not a number; the model always reports a number.
- The name copy and index reset of lines 99-100 are not modelled. `new_county_data` is indexed by the name labels (lines 34-35, 91), while `county_names_df['name']` is indexed 0..n-1, so the assignment of line 99 matches no label and fills the `name` column with NaN; `reset_index(drop=True)` of line 100 then drops the index, the last copy of the names. The source thus returns, and writes to CSV, a table without names. `PlanRows` deliberately keeps each county's name in its row.
- `desired_district_population` (line 53) is never used, and it is not modelled.
- redistricted_map.py is not part of this model. It only reads a shapefile and the CSV, normalises names, hard-codes districts 7 and 8 for King and Pierce, and plots.
- County names are assumed distinct, as in the county table. The model indexes counties by position, so the guard `county1_name != county2_name` of line 82 becomes `u != v`. With duplicate names, pandas' `set_index`/`loc` of lines 34-35 would duplicate rows, and that duplication is not modelled.
- The raw pairs carry only the two names. The FIPS columns are not modelled. With two distinct names, at least one is non-empty, so `.any().any()` on the matching rows (line 46) is true exactly when some row matched.
- The global `num_districts` is the parameter `D`. The script's 6 and 0.15 are the constants `NumDistricts` and `Tolerance`, passed by `RunScript`.
- Redistrict: requires D > 0. The script's D is the constant 6. A run with zero districts, where line 55 divides by zero, is not modelled.
