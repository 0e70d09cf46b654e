/** The adjacency matrix over the prepared county names, built from the raw
    list of border records: a cell is 1 when the two names differ and some
    record names them, in either order. */
module Adjacency {

  /** One raw border record: (County1_Name, County2_Name). */
  type Pair = (string, string)

  /** The scan of the raw records for the pair {a, b}: true when some record
      is (a, b) or (b, a), by exact string equality. When a and b differ one of
      them is non-empty, so `.any().any()` on the matching rows is true exactly
      when some row matched. */
  function Listed(pairs: seq<Pair>, a: string, b: string): (r: bool)
    ensures r <==> exists k :: 0 <= k < |pairs| && (pairs[k] == (a, b) || pairs[k] == (b, a))
  {
    if |pairs| == 0 then false
    else if pairs[0] == (a, b) || pairs[0] == (b, a) then true
    else
      var rest := Listed(pairs[1..], a, b);
      assert forall k :: 1 <= k < |pairs| ==> pairs[k] == pairs[1..][k - 1];
      rest
  }

  /** Whether cell (i, j) of the matrix is set: the names differ and are listed as neighbours. */
  predicate Adjacent(names: seq<string>, pairs: seq<Pair>, i: nat, j: nat)
    requires i < |names| && j < |names|
  {
    names[i] != names[j] && Listed(pairs, names[i], names[j])
  }

  /** The adjacency relation as a value: a 0/1 square matrix over the names
      that is symmetric, has a zero diagonal, and holds a 1 exactly where the
      two names differ and some raw record pairs them, in either order. */
  function AdjacencyMatrix(names: seq<string>, pairs: seq<Pair>): (r: seq<seq<int>>)
    ensures |r| == |names| && forall i :: 0 <= i < |r| ==> |r[i]| == |names|
    ensures forall i, j :: 0 <= i < |names| && 0 <= j < |names| ==>
      (r[i][j] == 0 || r[i][j] == 1) &&
      (r[i][j] == 1 <==>
        (names[i] != names[j] &&
         exists k :: 0 <= k < |pairs| && (pairs[k] == (names[i], names[j]) || pairs[k] == (names[j], names[i]))))
    ensures forall i, j :: 0 <= i < |names| && 0 <= j < |names| ==> r[i][j] == r[j][i]
    ensures forall i :: 0 <= i < |names| ==> r[i][i] == 0
  {
    seq(|names|, i requires 0 <= i < |names| =>
      seq(|names|, j requires 0 <= j < |names| => if Adjacent(names, pairs, i, j) then 1 else 0))
  }

  /** Lines 38-49: the zero matrix over the names, with a 1 written into every
      cell whose two names differ and are listed as neighbours. */
  method BuildAdjacency(names: seq<string>, pairs: seq<Pair>) returns (m: array2<int>)
    ensures fresh(m)
    ensures m.Length0 == |names| && m.Length1 == |names|
    ensures Rows(m) == AdjacencyMatrix(names, pairs)
  {
    var n := |names|;
    m := new int[n, n]((i, j) => 0);
    var i := 0;
    while i < n
      invariant 0 <= i <= n
      invariant m.Length0 == n && m.Length1 == n
      invariant forall p, q :: 0 <= p < n && 0 <= q < n ==>
        m[p, q] == if p < i && Adjacent(names, pairs, p, q) then 1 else 0
    {
      var j := 0;
      while j < n
        invariant 0 <= j <= n
        invariant forall p, q :: 0 <= p < n && 0 <= q < n ==>
          m[p, q] == if (p < i || (p == i && q < j)) && Adjacent(names, pairs, p, q) then 1 else 0
      {
        if names[i] != names[j] {
          var isAdjacent := Listed(pairs, names[i], names[j]);
          if isAdjacent {
            m[i, j] := 1;
          }
        }
        j := j + 1;
      }
      i := i + 1;
    }
    ghost var spec := AdjacencyMatrix(names, pairs);
    assert forall p :: 0 <= p < n ==> Rows(m)[p] == spec[p];
  }

  /** The matrix as a value: row i holds the cells m[i, 0], m[i, 1], ... */
  function Rows(m: array2<int>): (r: seq<seq<int>>)
    reads m
    ensures |r| == m.Length0
    ensures forall i, j :: 0 <= i < m.Length0 && 0 <= j < m.Length1 ==> |r[i]| == m.Length1 && r[i][j] == m[i, j]
  {
    seq(m.Length0, i reads m requires 0 <= i < m.Length0 =>
      seq(m.Length1, j reads m requires 0 <= j < m.Length1 => m[i, j]))
  }

  /** A county whose name never occurs in a raw record has no neighbour: its
      whole row (and column) stays 0, and nothing reports it. */
  lemma UnlistedNameIsIsolated(names: seq<string>, pairs: seq<Pair>, i: nat)
    requires i < |names|
    requires forall k :: 0 <= k < |pairs| ==> pairs[k].0 != names[i] && pairs[k].1 != names[i]
    ensures forall j :: 0 <= j < |names| ==>
      AdjacencyMatrix(names, pairs)[i][j] == 0 && AdjacencyMatrix(names, pairs)[j][i] == 0
  {
  }
}
