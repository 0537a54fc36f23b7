/**
 * Python's `list.sort(key=...)`: a stable sort by an integer key. Stability is
 * stated as "for every key value, the elements carrying it keep their relative
 * order", which together with sortedness determines the result.
 */
module Sorting {

  ghost predicate SortedBy<T>(s: seq<T>, key: T -> int)
  {
    forall i, j :: 0 <= i < j < |s| ==> key(s[i]) <= key(s[j])
  }

  /** The elements of s whose key is k, in their order in s. */
  function WithKey<T>(s: seq<T>, key: T -> int, k: int): seq<T>
  {
    if s == [] then []
    else (if key(s[0]) == k then [s[0]] else []) + WithKey(s[1..], key, k)
  }

  lemma SortedTail<T>(s: seq<T>, key: T -> int)
    requires SortedBy(s, key) && s != []
    ensures SortedBy(s[1..], key)
    ensures forall i :: 0 <= i < |s| ==> key(s[0]) <= key(s[i])
  {
    forall i, j | 0 <= i < j < |s| - 1 ensures key(s[1..][i]) <= key(s[1..][j]) {
      assert s[1..][i] == s[i + 1] && s[1..][j] == s[j + 1];
    }
  }

  lemma SortedCons<T>(y: T, s: seq<T>, key: T -> int)
    requires SortedBy(s, key) && forall i :: 0 <= i < |s| ==> key(y) <= key(s[i])
    ensures SortedBy([y] + s, key)
  {
    var r := [y] + s;
    forall i, j | 0 <= i < j < |r| ensures key(r[i]) <= key(r[j]) {
      assert r[j] == s[j - 1];
      if i > 0 { assert r[i] == s[i - 1]; }
    }
  }

  /** Inserts x in front of the first element of the sorted s whose key is not below x's. */
  function InsertBefore<T>(s: seq<T>, x: T, key: T -> int): (r: seq<T>)
    requires SortedBy(s, key)
    ensures |r| == |s| + 1
    ensures SortedBy(r, key)
    ensures multiset(r) == multiset(s) + multiset{x}
    decreases |s|
  {
    if s == [] then
      [x]
    else if key(x) <= key(s[0]) then
      SortedTail(s, key);
      SortedCons(x, s, key);
      [x] + s
    else
      SortedTail(s, key);
      var rest := InsertBefore(s[1..], x, key);
      assert s == [s[0]] + s[1..];
      assert forall i :: 0 <= i < |rest| ==> key(s[0]) <= key(rest[i]) by {
        forall i | 0 <= i < |rest| ensures key(s[0]) <= key(rest[i]) {
          assert rest[i] in multiset(rest);
          if rest[i] != x {
            assert rest[i] in multiset(s[1..]);
            var j :| 0 <= j < |s[1..]| && s[1..][j] == rest[i];
            assert s[j + 1] == rest[i];
          }
        }
      }
      SortedCons(s[0], rest, key);
      [s[0]] + rest
  }

  lemma {:induction false} WithKeyCons<T>(y: T, t: seq<T>, key: T -> int, k: int)
    ensures WithKey([y] + t, key, k) == (if key(y) == k then [y] else []) + WithKey(t, key, k)
  {
    assert ([y] + t)[1..] == t;
  }

  /** One step of InsertBefore: x goes first, or after the head of s. */
  lemma InsertBeforeStep<T>(s: seq<T>, x: T, key: T -> int)
    requires SortedBy(s, key)
    ensures s == [] || key(x) <= key(s[0]) ==> InsertBefore(s, x, key) == [x] + s
    ensures s != [] && key(s[0]) < key(x) ==>
              SortedBy(s[1..], key) && InsertBefore(s, x, key) == [s[0]] + InsertBefore(s[1..], x, key)
  {
    if s == [] {
      assert [x] + s == [x];
    } else {
      SortedTail(s, key);
    }
  }

  /** With s's head sorting strictly below x, the keyed elements of the insertion follow from those of the tail's. */
  lemma {:induction false} InsertBehindHead<T>(s: seq<T>, x: T, key: T -> int, k: int)
    requires SortedBy(s, key) && s != [] && key(s[0]) < key(x)
    requires SortedBy(s[1..], key)
    requires WithKey(InsertBefore(s[1..], x, key), key, k) == (if key(x) == k then [x] else []) + WithKey(s[1..], key, k)
    ensures WithKey(InsertBefore(s, x, key), key, k) == (if key(x) == k then [x] else []) + WithKey(s, key, k)
  {
    InsertBeforeStep(s, x, key);
    var rest := InsertBefore(s[1..], x, key);
    var w := WithKey(s[1..], key, k);
    WithKeyCons(s[0], rest, key, k);
    WithKeyCons(s[0], s[1..], key, k);
    assert s == [s[0]] + s[1..];
    if key(x) == k {
      // s[0] sorts strictly below x, so it does not carry x's key
      assert WithKey(rest, key, k) == [x] + w;
      assert WithKey(s, key, k) == [] + w == w;
      assert WithKey([s[0]] + rest, key, k) == [] + ([x] + w) == [x] + w;
    } else {
      assert WithKey(rest, key, k) == [] + w == w;
    }
  }

  /** x lands in front of every element of s that carries its key, so equal keys keep their order. */
  lemma {:induction false} InsertBeforeStable<T>(s: seq<T>, x: T, key: T -> int, k: int)
    requires SortedBy(s, key)
    ensures WithKey(InsertBefore(s, x, key), key, k) == (if key(x) == k then [x] else []) + WithKey(s, key, k)
    decreases |s|
  {
    InsertBeforeStep(s, x, key);
    if s == [] || key(x) <= key(s[0]) {
      WithKeyCons(x, s, key, k);
    } else {
      InsertBeforeStable(s[1..], x, key, k);
      InsertBehindHead(s, x, key, k);
    }
  }

  /** The stable sort of s by key. */
  function SortBy<T>(s: seq<T>, key: T -> int): (r: seq<T>)
    ensures |r| == |s|
    ensures SortedBy(r, key)
    ensures multiset(r) == multiset(s)
    ensures forall k :: WithKey(r, key, k) == WithKey(s, key, k)
    decreases |s|
  {
    if s == [] then []
    else
      var rest := SortBy(s[1..], key);
      assert s == [s[0]] + s[1..];
      forall k ensures WithKey(InsertBefore(rest, s[0], key), key, k) == WithKey(s, key, k) {
        InsertBeforeStable(rest, s[0], key, k);
      }
      InsertBefore(rest, s[0], key)
  }
}
