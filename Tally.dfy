/**
 * `SELECT col, COUNT(*) AS total ... GROUP BY col`, plucked into a map from
 * each distinct value of the column to the number of rows holding it.
 */
module Tally {

  /** How many entries of `column` equal `v`. */
  function Occurrences(column: seq<string>, v: string): (n: nat)
    ensures n > 0 <==> v in column
  {
    if column == [] then 0
    else
      assert column == column[..|column| - 1] + [column[|column| - 1]];
      Occurrences(column[..|column| - 1], v) + (if column[|column| - 1] == v then 1 else 0)
  }

  /** The grouped counts: one key per distinct value, mapped to its number of rows. */
  function GroupCount(column: seq<string>): (m: map<string, nat>)
    ensures m.Keys == set v | v in column
    ensures forall v :: v in m ==> m[v] == Occurrences(column, v) && m[v] > 0
  {
    if column == [] then map[]
    else
      var front := column[..|column| - 1];
      var v := column[|column| - 1];
      assert column == front + [v];
      var m := GroupCount(front);
      m[v := if v in m then m[v] + 1 else 1]
  }

  /** The sum of all the totals of a grouped count. */
  ghost function Total(m: map<string, nat>): nat
    decreases |m|
  {
    if m == map[] then 0
    else
      var v :| v in m;
      m[v] + Total(m - {v})
  }

  lemma {:induction false} TotalWithout(m: map<string, nat>, v: string)
    requires v in m
    ensures Total(m) == m[v] + Total(m - {v})
    decreases |m|
  {
    var w :| w in m && Total(m) == m[w] + Total(m - {w});
    if w != v {
      var both := m - {v} - {w};
      assert m - {w} - {v} == both;
      TotalWithout(m - {w}, v);
      TotalWithout(m - {v}, w);
    }
  }

  /** Counting one more row of value `v` raises the sum of the totals by one. */
  lemma {:induction false} TotalBump(m: map<string, nat>, v: string)
    ensures Total(m[v := if v in m then m[v] + 1 else 1]) == Total(m) + 1
  {
    var m' := m[v := if v in m then m[v] + 1 else 1];
    TotalWithout(m', v);
    if v in m {
      TotalWithout(m, v);
      assert m' - {v} == m - {v};
    } else {
      assert m' - {v} == m;
    }
  }

  /** Every row is counted in exactly one group: the totals add up to the row count. */
  lemma {:induction false} GroupCountTotal(column: seq<string>)
    ensures Total(GroupCount(column)) == |column|
  {
    if column != [] {
      var front := column[..|column| - 1];
      GroupCountTotal(front);
      TotalBump(GroupCount(front), column[|column| - 1]);
    }
  }
}
