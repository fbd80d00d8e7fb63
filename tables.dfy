/**
 * Tables: what the object-relational mapper offers the rest of the model.
 *
 * A database table is a sequence of rows. A UNIQUE column is a key function
 * that no two rows share (UniqueBy); `filter(...)` is Filter, `get(...)` and
 * `filter(...).exists()` are FindBy, and a new primary key is FreshKey, one
 * past the largest key in use. Key functions are passed as named functions
 * (UserId, Username, ...) so that every mention of a key is the same term.
 */
module Tables {

  datatype Option<+T> = None | Some(value: T)

  /** The set of keys the rows of `s` carry. */
  function KeySet<T(==), K>(s: seq<T>, key: T -> K): (ks: set<K>)
    ensures forall x :: x in s ==> key(x) in ks
    ensures forall k :: k in ks ==> exists x :: x in s && key(x) == k
  {
    set x | x in s :: key(x)
  }

  /** No two rows of `s` carry the same key: a UNIQUE constraint. */
  predicate UniqueBy<T, K(==)>(s: seq<T>, key: T -> K) {
    forall i, j :: 0 <= i < j < |s| ==> key(s[i]) != key(s[j])
  }

  /** The rows of `s` that `keep` accepts, in table order (a queryset filter, or what
      survives a delete). */
  function Filter<T(==)>(s: seq<T>, keep: T -> bool): (r: seq<T>)
    ensures |r| <= |s|
    ensures forall x :: x in r ==> x in s && keep(x)
    ensures forall x :: x in s && keep(x) ==> x in r
  {
    if s == [] then []
    else
      assert forall x :: x in s ==> x == s[0] || x in s[1..];
      if keep(s[0]) then [s[0]] + Filter(s[1..], keep) else Filter(s[1..], keep)
  }

  /** The first row whose key is `k`: `get(key=k)` when it exists. */
  function FindBy<T(==), K(==)>(s: seq<T>, key: T -> K, k: K): (r: Option<T>)
    ensures r.Some? ==> r.value in s && key(r.value) == k
    ensures r.None? <==> forall x :: x in s ==> key(x) != k
  {
    if s == [] then None
    else if key(s[0]) == k then Some(s[0])
    else
      assert forall x :: x in s ==> x == s[0] || x in s[1..];
      FindBy(s[1..], key, k)
  }

  /** The position of row `x` in `s` (the row an update writes back to). */
  function IndexOf<T(==)>(s: seq<T>, x: T): (i: nat)
    requires x in s
    ensures i < |s| && s[i] == x
  {
    if s[0] == x then 0
    else
      assert x in s[1..] by { assert forall y :: y in s ==> y == s[0] || y in s[1..]; }
      1 + IndexOf(s[1..], x)
  }

  /** A primary key larger than every key in use: one past the largest. Unlike the
      database's auto-increment counter, it hands out again the key of a deleted
      highest row. */
  function FreshKey<T(==)>(s: seq<T>, key: T -> nat): (r: nat)
    ensures forall x :: x in s ==> key(x) < r
  {
    if s == [] then 0
    else
      assert forall x :: x in s ==> x == s[0] || x in s[1..];
      var rest := FreshKey(s[1..], key);
      if key(s[0]) < rest then rest else key(s[0]) + 1
  }

  /** Under a UNIQUE constraint, a row with key `k` is the one row `get(key=k)` returns. */
  lemma FindByUnique<T, K>(s: seq<T>, key: T -> K, x: T)
    requires UniqueBy(s, key)
    requires x in s
    ensures FindBy(s, key, key(x)) == Some(x)
  {
    var y := FindBy(s, key, key(x)).value;
    var i :| 0 <= i < |s| && s[i] == x;
    var j :| 0 <= j < |s| && s[j] == y;
    if i < j {
      assert key(s[i]) != key(s[j]);
    } else if j < i {
      assert key(s[j]) != key(s[i]);
    }
  }

  /** Under a UNIQUE constraint, two rows with the same key are the same row. */
  lemma SameKeySameRow<T, K>(s: seq<T>, key: T -> K, x: T, y: T)
    requires UniqueBy(s, key)
    requires x in s && y in s && key(x) == key(y)
    ensures x == y
  {
    FindByUnique(s, key, x);
    FindByUnique(s, key, y);
  }

  /** Removing rows never breaks a UNIQUE constraint. */
  lemma {:induction false} FilterKeepsUnique<T, K>(s: seq<T>, keep: T -> bool, key: T -> K)
    requires UniqueBy(s, key)
    ensures UniqueBy(Filter(s, keep), key)
  {
    if s != [] {
      var tail := s[1..];
      assert UniqueBy(tail, key) by {
        forall i, j | 0 <= i < j < |tail| ensures key(tail[i]) != key(tail[j]) {
          assert tail[i] == s[i + 1] && tail[j] == s[j + 1];
        }
      }
      FilterKeepsUnique(tail, keep, key);
      if keep(s[0]) {
        var rest := Filter(tail, keep);
        var r := [s[0]] + rest;
        forall i, j | 0 <= i < j < |r| ensures key(r[i]) != key(r[j]) {
          if i == 0 {
            assert r[j] in tail;
            var k :| 0 <= k < |tail| && tail[k] == r[j];
            assert s[k + 1] == r[j];
          } else {
            assert r[i] == rest[i - 1] && r[j] == rest[j - 1];
          }
        }
      }
    }
  }

  /** Adding a row whose key is not in use keeps a UNIQUE constraint. */
  lemma AppendKeepsUnique<T, K>(s: seq<T>, x: T, key: T -> K)
    requires UniqueBy(s, key)
    requires key(x) !in KeySet(s, key)
    ensures UniqueBy(s + [x], key)
  {
    var r := s + [x];
    forall i, j | 0 <= i < j < |r| ensures key(r[i]) != key(r[j]) {
      if j == |s| {
        assert r[i] in s;
      } else {
        assert r[i] == s[i] && r[j] == s[j];
      }
    }
  }

  /** Replacing row `i` by a row whose key no other row carries keeps a UNIQUE constraint. */
  lemma ReplaceKeepsUnique<T, K>(s: seq<T>, i: nat, x: T, key: T -> K)
    requires UniqueBy(s, key)
    requires i < |s|
    requires forall j :: 0 <= j < |s| && j != i ==> key(s[j]) != key(x)
    ensures UniqueBy(s[i := x], key)
  {
  }
}
