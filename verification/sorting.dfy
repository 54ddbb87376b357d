/**
 * The stable sort that `Array.prototype.sort` performs when given the
 * comparator `(a, b) => key(b) - key(a)`: highest key first, elements with
 * equal keys in their original order.  The key is a parameter, so the
 * properties below hold for any scoring function.
 */
module Sorting {

  /** Keys never increase along `s`. */
  predicate Descending<T>(s: seq<T>, key: T -> nat)
  {
    forall i, j :: 0 <= i < j < |s| ==> key(s[i]) >= key(s[j])
  }

  /** Places `x` before the first element whose key is not higher than its own. */
  function Insert<T>(x: T, s: seq<T>, key: T -> nat): (r: seq<T>)
    ensures multiset(r) == multiset(s) + multiset{x}
    ensures |r| == |s| + 1
  {
    if s == [] || key(x) >= key(s[0]) then
      [x] + s
    else
      assert s == [s[0]] + s[1..];
      [s[0]] + Insert(x, s[1..], key)
  }

  lemma {:induction false} InsertDescending<T>(x: T, s: seq<T>, key: T -> nat)
    requires Descending(s, key)
    ensures Descending(Insert(x, s, key), key)
    ensures Insert(x, s, key)[0] == x || (s != [] && Insert(x, s, key)[0] == s[0])
  {
    if s == [] || key(x) >= key(s[0]) {
    } else {
      var rest := Insert(x, s[1..], key);
      InsertDescending(x, s[1..], key);
      assert key(s[0]) >= key(rest[0]);
      var r := [s[0]] + rest;
      forall i, j | 0 <= i < j < |r| ensures key(r[i]) >= key(r[j]) {
        if i == 0 {
          assert r[j] == rest[j - 1];
        } else {
          assert r[i] == rest[i - 1] && r[j] == rest[j - 1];
        }
      }
    }
  }

  /** Sorts by descending key, keeping the members and the order of ties. */
  function SortByKey<T>(g: seq<T>, key: T -> nat): (s: seq<T>)
    ensures multiset(s) == multiset(g)
    ensures |s| == |g|
    ensures Descending(s, key)
  {
    if g == [] then []
    else
      assert g == [g[0]] + g[1..];
      InsertDescending(g[0], SortByKey(g[1..], key), key);
      Insert(g[0], SortByKey(g[1..], key), key)
  }

  /** The members of `s` whose key is `v`, in order. */
  function WithKey<T>(s: seq<T>, key: T -> nat, v: nat): seq<T>
  {
    if s == [] then []
    else (if key(s[0]) == v then [s[0]] else []) + WithKey(s[1..], key, v)
  }

  lemma {:induction false} InsertWithKey<T>(x: T, s: seq<T>, key: T -> nat, v: nat)
    ensures WithKey(Insert(x, s, key), key, v) == (if key(x) == v then [x] else []) + WithKey(s, key, v)
  {
    var own := if key(x) == v then [x] else [];
    if s == [] || key(x) >= key(s[0]) {
      var r := [x] + s;
      assert r[0] == x && r[1..] == s;
      assert WithKey(r, key, v) == own + WithKey(s, key, v);
    } else {
      var rest := Insert(x, s[1..], key);
      var r := [s[0]] + rest;
      var head := if key(s[0]) == v then [s[0]] else [];
      InsertWithKey(x, s[1..], key, v);
      assert r[0] == s[0] && r[1..] == rest;
      assert WithKey(r, key, v) == head + (own + WithKey(s[1..], key, v));
      assert WithKey(s, key, v) == head + WithKey(s[1..], key, v);
      if key(x) == v {
        assert head == [];
      } else {
        assert own == [];
      }
    }
  }

  /** The sort is stable: members with equal keys keep their input order. */
  lemma {:induction false} SortIsStable<T>(g: seq<T>, key: T -> nat, v: nat)
    ensures WithKey(SortByKey(g, key), key, v) == WithKey(g, key, v)
  {
    if g != [] {
      SortIsStable(g[1..], key, v);
      InsertWithKey(g[0], SortByKey(g[1..], key), key, v);
    }
  }

  /** The highest key in a non-empty sequence. */
  function MaxKey<T>(g: seq<T>, key: T -> nat): (m: nat)
    requires g != []
    ensures forall i :: 0 <= i < |g| ==> key(g[i]) <= m
    ensures exists i :: 0 <= i < |g| && key(g[i]) == m
  {
    if |g| == 1 then key(g[0])
    else
      var m := MaxKey(g[1..], key);
      assert forall i :: 1 <= i < |g| ==> g[i] == g[1..][i - 1];
      if key(g[0]) >= m then key(g[0]) else m
  }

  /** The position of the earliest member with the highest key. */
  function FirstBest<T>(g: seq<T>, key: T -> nat): (r: nat)
    requires g != []
    ensures r < |g| && key(g[r]) == MaxKey(g, key)
    ensures forall j :: 0 <= j < r ==> key(g[j]) < MaxKey(g, key)
  {
    if |g| == 1 || key(g[0]) >= MaxKey(g[1..], key) then 0
    else
      var r := 1 + FirstBest(g[1..], key);
      assert forall j :: 1 <= j < r ==> g[j] == g[1..][j - 1];
      r
  }

  /** The sort puts first the earliest member with the highest key. */
  lemma {:induction false} SortHead<T>(g: seq<T>, key: T -> nat)
    requires g != []
    ensures SortByKey(g, key)[0] == g[FirstBest(g, key)]
  {
    if |g| > 1 {
      SortHead(g[1..], key);
      var s := SortByKey(g[1..], key);
      assert key(s[0]) == MaxKey(g[1..], key);
    }
  }
}
