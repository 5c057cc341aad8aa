/**
 * The statements the storage layer sends to its SQL tables, modelled on
 * sequences of rows: a filtering DELETE, an UPDATE over every row that
 * matches, a SELECT of the first matching row, and a SELECT ... ORDER BY a
 * text column. The key of a row is passed as a function, so that the three
 * tables of the application share one definition of each statement.
 */
module Tables {
  import opened Wrappers
  import opened Strings

  // ---------------------------------------------------------------------
  // keys
  // ---------------------------------------------------------------------

  /** No two rows share a key: the primary-key constraint. */
  ghost predicate UniqueKeys<T>(s: seq<T>, key: T -> string) {
    forall i, j :: 0 <= i < j < |s| ==> key(s[i]) != key(s[j])
  }

  /** The position of the first row satisfying `p`, if any (Array.prototype.findIndex). */
  function FindFirst<T>(s: seq<T>, p: T -> bool): (r: Option<nat>)
    ensures r.None? <==> forall i :: 0 <= i < |s| ==> !p(s[i])
    ensures r.Some? ==> r.value < |s| && p(s[r.value])
    ensures r.Some? ==> forall i :: 0 <= i < r.value ==> !p(s[i])
  {
    if s == [] then None
    else if p(s[0]) then Some(0)
    else match FindFirst(s[1..], p)
      case None => None
      case Some(i) => Some(i + 1)
  }

  /** The position of the row with key `k`, if any. */
  function KeyIndex<T>(s: seq<T>, key: T -> string, k: string): Option<nat> {
    FindFirst(s, (x: T) => key(x) == k)
  }

  predicate HasKey<T>(s: seq<T>, key: T -> string, k: string) {
    KeyIndex(s, key, k).Some?
  }

  /** The row with key `k`. */
  function RowWithKey<T>(s: seq<T>, key: T -> string, k: string): (x: T)
    requires HasKey(s, key, k)
    ensures key(x) == k
  {
    s[KeyIndex(s, key, k).value]
  }

  /** With unique keys, the row with key `k` sits exactly where a row has key `k`. */
  lemma KeyIndexUnique<T>(s: seq<T>, key: T -> string, i: nat)
    requires UniqueKeys(s, key) && i < |s|
    ensures KeyIndex(s, key, key(s[i])) == Some(i)
  {
  }

  // ---------------------------------------------------------------------
  // DELETE ... WHERE
  // ---------------------------------------------------------------------

  /** The rows that satisfy `keep`, in their original order. */
  function Filter<T>(s: seq<T>, keep: T -> bool): (r: seq<T>)
    ensures forall i :: 0 <= i < |r| ==> keep(r[i])
    ensures |r| <= |s|
  {
    if s == [] then [] else (if keep(s[0]) then [s[0]] else []) + Filter(s[1..], keep)
  }

  /** A DELETE ... WHERE keeps every row satisfying `keep` with its
      multiplicity, and no other row. */
  lemma {:induction false} FilterCounts<T(!new)>(s: seq<T>, keep: T -> bool)
    ensures forall x :: multiset(Filter(s, keep))[x] == if keep(x) then multiset(s)[x] else 0
  {
    if s != [] {
      FilterCounts(s[1..], keep);
      assert s == [s[0]] + s[1..];
    }
  }

  /** Filtering a table with appended row filters the table and then the row. */
  lemma {:induction false} FilterAppend<T>(s: seq<T>, x: T, keep: T -> bool)
    ensures Filter(s + [x], keep) == Filter(s, keep) + (if keep(x) then [x] else [])
  {
    var tail := if keep(x) then [x] else [];
    if s == [] {
      assert Filter([x], keep) == tail + Filter([], keep);
      assert s + [x] == [x];
    } else {
      var head := if keep(s[0]) then [s[0]] else [];
      assert (s + [x])[0] == s[0];
      assert (s + [x])[1..] == s[1..] + [x];
      calc {
        Filter(s + [x], keep);
        head + Filter(s[1..] + [x], keep);
        { FilterAppend(s[1..], x, keep); }
        head + (Filter(s[1..], keep) + tail);
        (head + Filter(s[1..], keep)) + tail;
        Filter(s, keep) + tail;
      }
    }
  }

  /** Filtering with a condition that every row meets changes nothing. */
  lemma {:induction false} FilterKeepsAll<T>(s: seq<T>, keep: T -> bool)
    requires forall i :: 0 <= i < |s| ==> keep(s[i])
    ensures Filter(s, keep) == s
  {
    if s != [] {
      FilterKeepsAll(s[1..], keep);
      assert s == [s[0]] + s[1..];
    }
  }

  /** Deleting the row with a key that no row has changes nothing. */
  lemma FilterAbsentKey<T>(s: seq<T>, key: T -> string, k: string, keep: T -> bool)
    requires forall x :: keep(x) <==> key(x) != k
    ensures !HasKey(s, key, k) ==> Filter(s, keep) == s
  {
    if !HasKey(s, key, k) {
      FilterKeepsAll(s, keep);
    }
  }

  /** Removing rows keeps the primary key unique. */
  lemma {:induction false} FilterKeepsUniqueKeys<T(!new)>(s: seq<T>, keep: T -> bool, key: T -> string)
    ensures UniqueKeys(s, key) ==> UniqueKeys(Filter(s, keep), key)
  {
    if s != [] && UniqueKeys(s, key) {
      var rest := Filter(s[1..], keep);
      FilterKeepsUniqueKeys(s[1..], keep, key);
      FilterCounts(s[1..], keep);
      forall j | 0 <= j < |rest| ensures key(rest[j]) != key(s[0]) {
        assert rest[j] in multiset(rest);
        assert rest[j] in multiset(s[1..]);
        var m :| 0 <= m < |s[1..]| && s[1..][m] == rest[j];
        assert s[m + 1] == rest[j];
      }
    }
  }

  /** DELETE ... WHERE key = k: the rows whose key is not `k`, in their
      order. Exactly the rows with key `k` go, nothing goes when no row has
      that key, and a unique key stays unique. */
  function WithoutKey<T(!new)>(s: seq<T>, key: T -> string, k: string): (r: seq<T>)
    ensures forall x :: multiset(r)[x] == if key(x) == k then 0 else multiset(s)[x]
    ensures !HasKey(s, key, k) ==> r == s
    ensures UniqueKeys(s, key) ==> UniqueKeys(r, key)
  {
    var keep := (x: T) => key(x) != k;
    FilterCounts(s, keep);
    FilterAbsentKey(s, key, k, keep);
    FilterKeepsUniqueKeys(s, keep, key);
    Filter(s, keep)
  }

  // ---------------------------------------------------------------------
  // UPDATE ... SET ... WHERE key = k
  // ---------------------------------------------------------------------

  /** Every row whose key is `k` replaced by `f` of it; the other rows as they were. */
  function UpdateByKey<T>(s: seq<T>, key: T -> string, k: string, f: T -> T): (r: seq<T>)
    ensures |r| == |s|
    ensures forall i :: 0 <= i < |s| && key(s[i]) != k ==> r[i] == s[i]
    ensures forall i :: 0 <= i < |s| && key(s[i]) == k ==> r[i] == f(s[i])
  {
    seq(|s|, i requires 0 <= i < |s| => if key(s[i]) == k then f(s[i]) else s[i])
  }

  /** With a unique key, an update by key changes the one row with that key and
      no other, and keeps the key unique when `f` does not touch the key. */
  lemma UpdateByKeyTouchesOneRow<T>(s: seq<T>, key: T -> string, i: nat, f: T -> T)
    requires UniqueKeys(s, key) && i < |s|
    requires forall x :: key(f(x)) == key(x)
    ensures var r := UpdateByKey(s, key, key(s[i]), f);
      r[i] == f(s[i]) && (forall j :: 0 <= j < |s| && j != i ==> r[j] == s[j])
      && UniqueKeys(r, key)
  {
    var r := UpdateByKey(s, key, key(s[i]), f);
    forall j | 0 <= j < |s| ensures key(r[j]) == key(s[j]) {
      assert r[j] == if key(s[j]) == key(s[i]) then f(s[j]) else s[j];
    }
  }

  /** Updating a key that no row has changes nothing. */
  lemma UpdateAbsentKey<T>(s: seq<T>, key: T -> string, k: string, f: T -> T)
    requires !HasKey(s, key, k)
    ensures UpdateByKey(s, key, k, f) == s
  {
  }

  // ---------------------------------------------------------------------
  // SELECT ... ORDER BY a text column
  // ---------------------------------------------------------------------

  /** Rows in non-decreasing order of their text rank. */
  predicate SortedBy<T>(s: seq<T>, rank: T -> string) {
    forall i, j :: 0 <= i < j < |s| ==> LexLessEq(rank(s[i]), rank(s[j]))
  }

  /** `x` placed into a sorted sequence: still sorted, one more element. */
  function InsertByRank<T>(x: T, s: seq<T>, rank: T -> string): (r: seq<T>)
    requires SortedBy(s, rank)
    ensures SortedBy(r, rank)
    ensures multiset(r) == multiset(s) + multiset{x}
  {
    if s == [] then [x]
    else if LexLessEq(rank(x), rank(s[0])) then
      assert forall j :: 0 <= j < |s| ==> LexLessEq(rank(x), rank(s[j])) by {
        forall j | 0 <= j < |s| ensures LexLessEq(rank(x), rank(s[j])) {
          if j > 0 { LexTransitive(rank(x), rank(s[0]), rank(s[j])); }
        }
      }
      [x] + s
    else
      var rest := InsertByRank(x, s[1..], rank);
      assert s == [s[0]] + s[1..];
      assert forall j :: 0 <= j < |rest| ==> LexLessEq(rank(s[0]), rank(rest[j])) by {
        forall j | 0 <= j < |rest| ensures LexLessEq(rank(s[0]), rank(rest[j])) {
          assert rest[j] in multiset(rest);
          if rest[j] == x {
            LexTotal(rank(x), rank(s[0]));
          } else {
            assert rest[j] in multiset(s[1..]);
            var m :| 0 <= m < |s[1..]| && s[1..][m] == rest[j];
            assert s[m + 1] == rest[j];
          }
        }
      }
      [s[0]] + rest
  }

  /** The rows reordered so that their ranks never decrease (an insertion sort). */
  function SortBy<T>(s: seq<T>, rank: T -> string): (r: seq<T>)
    ensures SortedBy(r, rank)
    ensures multiset(r) == multiset(s)
  {
    if s == [] then []
    else
      assert s == [s[0]] + s[1..];
      InsertByRank(s[0], SortBy(s[1..], rank), rank)
  }
}
