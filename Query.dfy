/**
 * The two query shapes the controllers use: `WHERE` on a row predicate and
 * `ORDER BY column DESC` on a nullable timestamp column, answered as the
 * database answers it: larger values first and NULL, the lowest value, last.
 */
module Query {
  import opened Nullable

  /** The rows of `rows` that satisfy `keep`: each exactly as often as in the table, and no other. */
  function Where<T(!new)>(rows: seq<T>, keep: T -> bool): (r: seq<T>)
    ensures forall x :: multiset(r)[x] == if keep(x) then multiset(rows)[x] else 0
  {
    if rows == [] then []
    else
      assert rows == [rows[0]] + rows[1..];
      (if keep(rows[0]) then [rows[0]] else []) + Where(rows[1..], keep)
  }

  /** In descending order a row keyed `a` may come before a row keyed `b`. */
  predicate RanksFirst(a: Option<int>, b: Option<int>)
  {
    b.None? || (a.Some? && a.value >= b.value)
  }

  ghost predicate Descending<T>(s: seq<T>, key: T -> Option<int>)
  {
    forall i, j :: 0 <= i < j < |s| ==> RanksFirst(key(s[i]), key(s[j]))
  }

  /** Puts `x` in front of the first row it ranks before. */
  function InsertDescending<T>(x: T, s: seq<T>, key: T -> Option<int>): (r: seq<T>)
    requires Descending(s, key)
    ensures multiset(r) == multiset(s) + multiset{x}
    ensures Descending(r, key)
    ensures |r| == |s| + 1 && (r[0] == x || (s != [] && r[0] == s[0]))
  {
    if s == [] || RanksFirst(key(x), key(s[0])) then
      [x] + s
    else
      var rest := InsertDescending(x, s[1..], key);
      assert s == [s[0]] + s[1..];
      assert RanksFirst(key(s[0]), key(rest[0]));
      assert forall j :: 0 <= j < |rest| ==> RanksFirst(key(s[0]), key(rest[j])) by {
        forall j | 0 < j < |rest|
          ensures RanksFirst(key(s[0]), key(rest[j]))
        {
          assert RanksFirst(key(rest[0]), key(rest[j]));
        }
      }
      [s[0]] + rest
  }

  /** The rows of `s`, newest first: a permutation of `s` in descending key order. */
  function SortDescending<T>(s: seq<T>, key: T -> Option<int>): (r: seq<T>)
    ensures multiset(r) == multiset(s)
    ensures Descending(r, key)
  {
    if s == [] then []
    else
      assert s == [s[0]] + s[1..];
      InsertDescending(s[0], SortDescending(s[1..], key), key)
  }
}
