/** The row order the read queries produce with `ORDER BY <key> DESC`,
    optionally with a `LIMIT`.

    SQLite leaves the order of rows with equal keys unspecified. The sort here
    puts the later row of a tie first; every property proved below holds
    whatever order ties are given. */
module Ordering {

  /** `s` lists its elements by non-increasing key. */
  predicate Descending<T>(s: seq<T>, key: T -> int) {
    forall i, j :: 0 <= i < j < |s| ==> key(s[i]) >= key(s[j])
  }

  /** Puts `x` into `s` after every element whose key is at least `x`'s. */
  function Insert<T>(x: T, s: seq<T>, key: T -> int): (r: seq<T>)
    ensures multiset(r) == multiset(s) + multiset{x}
    ensures |r| == |s| + 1
  {
    if s == [] || key(s[0]) < key(x) then
      [x] + s
    else
      assert s == [s[0]] + s[1..];
      [s[0]] + Insert(x, s[1..], key)
  }

  /** Inserting into a descending sequence leaves it descending. */
  lemma {:induction false} InsertKeepsDescending<T>(x: T, s: seq<T>, key: T -> int)
    requires Descending(s, key)
    ensures Descending(Insert(x, s, key), key)
  {
    if s != [] && key(s[0]) >= key(x) {
      var tail := s[1..];
      InsertKeepsDescending(x, tail, key);
      var rest := Insert(x, tail, key);
      forall k | 0 <= k < |rest| ensures key(s[0]) >= key(rest[k]) {
        assert rest[k] in multiset(rest);
        if rest[k] != x {
          assert rest[k] in multiset(tail);
          var j :| 0 <= j < |tail| && tail[j] == rest[k];
          assert s[j + 1] == rest[k];
        }
      }
      assert Insert(x, s, key) == [s[0]] + rest;
    }
  }

  /** `ORDER BY key DESC` over all of `s`. */
  function SortDescending<T>(s: seq<T>, key: T -> int): (r: seq<T>)
    ensures multiset(r) == multiset(s)
    ensures |r| == |s|
    ensures Descending(r, key)
  {
    if s == [] then []
    else
      assert s == [s[0]] + s[1..];
      InsertKeepsDescending(s[0], SortDescending(s[1..], key), key);
      Insert(s[0], SortDescending(s[1..], key), key)
  }

  /** `ORDER BY key DESC LIMIT limit`: the `limit` elements with the largest
      keys (all of them when there are fewer), largest first. No element left
      out has a larger key than one returned. */
  function Newest<T>(s: seq<T>, key: T -> int, limit: nat): (r: seq<T>)
    ensures |r| == if |s| < limit then |s| else limit
    ensures Descending(r, key)
    ensures multiset(r) <= multiset(s)
    ensures forall x, y :: x in multiset(s) - multiset(r) && y in r ==> key(x) <= key(y)
  {
    var sorted := SortDescending(s, key);
    var n := if |s| < limit then |s| else limit;
    PrefixKeepsLargest(sorted, key, n);
    sorted[..n]
  }

  /** Splitting a descending sequence leaves only smaller-or-equal keys behind. */
  lemma {:induction false} PrefixKeepsLargest<T>(s: seq<T>, key: T -> int, n: nat)
    requires Descending(s, key) && n <= |s|
    ensures multiset(s[..n]) <= multiset(s)
    ensures forall x, y :: x in multiset(s) - multiset(s[..n]) && y in s[..n] ==> key(x) <= key(y)
  {
    assert s == s[..n] + s[n..];
    assert multiset(s) == multiset(s[..n]) + multiset(s[n..]);
    forall x, y | x in multiset(s) - multiset(s[..n]) && y in s[..n]
      ensures key(x) <= key(y)
    {
      assert x in multiset(s[n..]);
      var j :| 0 <= j < |s[n..]| && s[n..][j] == x;
      var i :| 0 <= i < n && s[..n][i] == y;
      assert s[i] == y && s[n + j] == x;
    }
  }
}
