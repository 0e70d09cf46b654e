/** The county table before the optimisation sees it: the hand-assigned
    counties are taken out, and the rest is put in the canonical order of
    their names, the order that indexes the adjacency matrix, the decision
    variables and the output table. */
module Counties {

  /** One row of the county table: its name and its 2024 population. */
  datatype County = County(name: string, pop: nat)

  /** The counties that are assigned to districts by hand and never enter the optimisation. */
  const RemovedNames: seq<string> := ["King County", "Pierce County"]

  /** Keeps, in their order, the rows whose name is not one of the removed names;
      every other row is kept as often as it occurs. */
  function Remaining(table: seq<County>): (r: seq<County>)
    ensures forall c :: multiset(r)[c] == if c.name in RemovedNames then 0 else multiset(table)[c]
    ensures forall c :: c in r ==> c in table && c.name !in RemovedNames
  {
    if |table| == 0 then []
    else if table[0].name in RemovedNames then
      assert table == [table[0]] + table[1..];
      Remaining(table[1..])
    else
      assert table == [table[0]] + table[1..];
      [table[0]] + Remaining(table[1..])
  }

  /** Python's `<=` on strings: lexicographic by code point, a proper prefix first. */
  predicate NameLe(a: string, b: string)
  {
    |a| == 0 || (|b| > 0 && (a[0] < b[0] || (a[0] == b[0] && NameLe(a[1..], b[1..]))))
  }

  /** NameLe is the lexicographic order: a is a prefix of b, or at the first
      position where they differ a's character is the smaller. */
  lemma {:induction false} NameLeMeaning(a: string, b: string)
    ensures NameLe(a, b) <==>
      (|a| <= |b| && a == b[..|a|])
      || exists k :: 0 <= k < |a| && k < |b| && a[..k] == b[..k] && a[k] < b[k]
  {
    if |a| > 0 && |b| > 0 {
      NameLeMeaning(a[1..], b[1..]);
      if a[0] == b[0] {
        if |a| <= |b| && a == b[..|a|] {
          assert |a[1..]| <= |b[1..]| && a[1..] == b[1..][..|a[1..]|];
        }
        if |a[1..]| <= |b[1..]| && a[1..] == b[1..][..|a[1..]|] {
          assert a == [a[0]] + a[1..] && b[..|a|] == [b[0]] + b[1..][..|a[1..]|];
        }
        if k :| 0 <= k < |a| && k < |b| && a[..k] == b[..k] && a[k] < b[k] {
          assert k > 0;
          assert a[1..][..k - 1] == a[1..k] && b[1..][..k - 1] == b[1..k];
          assert a[1..k] == a[..k][1..] && b[1..k] == b[..k][1..];
          assert a[1..][k - 1] < b[1..][k - 1];
        }
        if k :| 0 <= k < |a[1..]| && k < |b[1..]| && a[1..][..k] == b[1..][..k] && a[1..][k] < b[1..][k] {
          assert a[..k + 1] == [a[0]] + a[1..][..k] && b[..k + 1] == [b[0]] + b[1..][..k];
          assert a[k + 1] < b[k + 1];
        }
      } else if a[0] < b[0] {
        assert a[..0] == b[..0];
      }
    } else if |a| > 0 {
      assert !(|a| <= |b|);
    }
  }

  lemma {:induction false} NameLeTotal(a: string, b: string)
    ensures NameLe(a, b) || NameLe(b, a)
  {
    if |a| > 0 && |b| > 0 && a[0] == b[0] {
      NameLeTotal(a[1..], b[1..]);
    }
  }

  lemma {:induction false} NameLeTransitive(a: string, b: string, c: string)
    requires NameLe(a, b) && NameLe(b, c)
    ensures NameLe(a, c)
  {
    if |a| > 0 && |c| > 0 && a[0] == b[0] && b[0] == c[0] {
      NameLeTransitive(a[1..], b[1..], c[1..]);
    }
  }

  /** Each row's name is at most the next row's name. */
  predicate SortedByName(s: seq<County>)
  {
    forall i :: 0 <= i < |s| - 1 ==> NameLe(s[i].name, s[i + 1].name)
  }

  /** Inserts `c` into a table already in name order, keeping it in name order. */
  function InsertByName(c: County, s: seq<County>): (r: seq<County>)
    requires SortedByName(s)
    ensures multiset(r) == multiset(s) + multiset{c}
    ensures SortedByName(r)
    ensures |r| == |s| + 1 && (r[0] == c || (|s| > 0 && r[0] == s[0]))
  {
    if |s| == 0 || NameLe(c.name, s[0].name) then [c] + s
    else
      NameLeTotal(c.name, s[0].name);
      assert s == [s[0]] + s[1..];
      [s[0]] + InsertByName(c, s[1..])
  }

  /** Python's `sorted` applied to the rows by name: the same rows, in name order. */
  function SortByName(table: seq<County>): (r: seq<County>)
    ensures multiset(r) == multiset(table)
    ensures SortedByName(r)
  {
    if |table| == 0 then []
    else
      assert table == [table[0]] + table[1..];
      InsertByName(table[0], SortByName(table[1..]))
  }

  /** In a table in name order, every earlier name is at most every later one. */
  lemma {:induction false} SortedByNamePairwise(s: seq<County>, i: nat, j: nat)
    requires SortedByName(s) && i <= j < |s|
    ensures NameLe(s[i].name, s[j].name)
    decreases j - i
  {
    if i == j {
      NameLeReflexive(s[i].name);
    } else {
      SortedByNamePairwise(s, i + 1, j);
      NameLeTransitive(s[i].name, s[i + 1].name, s[j].name);
    }
  }

  lemma {:induction false} NameLeReflexive(a: string)
    ensures NameLe(a, a)
  {
    if |a| > 0 {
      NameLeReflexive(a[1..]);
    }
  }

  /** The table the optimisation works on: the remaining rows in name order
      (the sorted name list of the script and the table reordered to it). */
  function Prepare(table: seq<County>): (r: seq<County>)
    ensures SortedByName(r)
    ensures forall c :: multiset(r)[c] == if c.name in RemovedNames then 0 else multiset(table)[c]
    ensures forall i :: 0 <= i < |r| ==> r[i] in table && r[i].name != "King County" && r[i].name != "Pierce County"
  {
    var r := SortByName(Remaining(table));
    assert forall i :: 0 <= i < |r| ==> r[i] in multiset(r);
    r
  }

  /** The row labels of the prepared table, in order. */
  function Names(table: seq<County>): seq<string>
  {
    seq(|table|, i requires 0 <= i < |table| => table[i].name)
  }

  /** The population column of the prepared table, in order. */
  function Populations(table: seq<County>): seq<nat>
  {
    seq(|table|, i requires 0 <= i < |table| => table[i].pop)
  }
}
