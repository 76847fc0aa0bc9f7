/**
  Python's `sorted` as the tool uses it: a stable sort by an integer key (rules by priority,
  report entries by line number), and the sorted list of the distinct strings of a sequence
  (`sorted(set(paths))`). Both are insertion sorts; what is proved is that the result is
  ordered, is a rearrangement of the input, and (for the keyed sort) that elements with equal
  keys keep their input order.
*/
module Sorting {

  import opened Text

  /** The elements of `s` whose key is `c`, in order. */
  function WithKey<T>(s: seq<T>, key: T -> int, c: int): (r: seq<T>)
    ensures |r| <= |s|
    decreases |s|
  {
    if s == [] then []
    else
      var n := |s| - 1;
      var rest := WithKey(s[..n], key, c);
      if key(s[n]) == c then rest + [s[n]] else rest
  }

  lemma {:induction false} WithKeyAppend<T>(a: seq<T>, b: seq<T>, key: T -> int, c: int)
    ensures WithKey(a + b, key, c) == WithKey(a, key, c) + WithKey(b, key, c)
    decreases |b|
  {
    if b == [] {
      assert a + b == a;
    } else {
      var n := |b| - 1;
      assert (a + b)[..|a + b| - 1] == a + b[..n];
      WithKeyAppend(a, b[..n], key, c);
    }
  }

  ghost predicate SortedBy<T>(s: seq<T>, key: T -> int) {
    forall i, j :: 0 <= i < j < |s| ==> key(s[i]) <= key(s[j])
  }

  /** `s` with `x` placed after every element whose key is at most x's. */
  function InsertBy<T>(x: T, s: seq<T>, key: T -> int): (r: seq<T>)
    requires SortedBy(s, key)
    ensures SortedBy(r, key)
    ensures multiset(r) == multiset(s) + multiset{x}
    decreases |s|
  {
    if s == [] then [x]
    else
      var n := |s| - 1;
      if key(s[n]) <= key(x) then s + [x]
      else
        var t := InsertBy(x, s[..n], key);
        assert s == s[..n] + [s[n]];
        forall i | 0 <= i < |t|
          ensures key(t[i]) <= key(s[n])
        {
          assert t[i] in multiset(t);
          if t[i] != x {
            assert t[i] in s[..n];
          }
        }
        t + [s[n]]
  }

  /** `sorted(s, key=key)`. */
  function SortBy<T>(s: seq<T>, key: T -> int): (r: seq<T>)
    ensures SortedBy(r, key)
    ensures multiset(r) == multiset(s)
    decreases |s|
  {
    if s == [] then []
    else
      var n := |s| - 1;
      assert s == s[..n] + [s[n]];
      InsertBy(s[n], SortBy(s[..n], key), key)
  }

  lemma WithKeySingleton<T>(x: T, key: T -> int, c: int)
    ensures WithKey([x], key, c) == if key(x) == c then [x] else []
  {
    assert [x][..0] == [];
  }

  /** Inserting keeps the relative order of the elements that share a key. */
  lemma {:induction false} InsertByStable<T>(x: T, s: seq<T>, key: T -> int, c: int)
    requires SortedBy(s, key)
    ensures WithKey(InsertBy(x, s, key), key, c) == WithKey(s, key, c) + (if key(x) == c then [x] else [])
    decreases |s|
  {
    if s != [] {
      var n := |s| - 1;
      WithKeySingleton(x, key, c);
      if key(s[n]) <= key(x) {
        WithKeyAppend(s, [x], key, c);
      } else {
        assert s == s[..n] + [s[n]];
        InsertByStable(x, s[..n], key, c);
        var t := InsertBy(x, s[..n], key);
        assert InsertBy(x, s, key) == t + [s[n]];
        WithKeyAppend(t, [s[n]], key, c);
        WithKeyAppend(s[..n], [s[n]], key, c);
        WithKeySingleton(s[n], key, c);
        assert WithKey(s, key, c) == WithKey(s[..n], key, c) + WithKey([s[n]], key, c);
        assert WithKey(InsertBy(x, s, key), key, c) == WithKey(t, key, c) + WithKey([s[n]], key, c);
        if key(x) == c {
          assert WithKey([s[n]], key, c) == [];
        }
        ShuffleTail(WithKey(s[..n], key, c), WithKey(t, key, c), WithKey([s[n]], key, c),
          if key(x) == c then [x] else []);
      }
    }
  }

  lemma ShuffleTail<T>(a: seq<T>, t: seq<T>, last: seq<T>, tail: seq<T>)
    requires t == a + tail && (last == [] || tail == [])
    ensures t + last == (a + last) + tail
  {
  }

  /** `sorted` is stable: for every key, the elements with that key appear in input order. */
  lemma {:induction false} SortByStable<T>(s: seq<T>, key: T -> int, c: int)
    ensures WithKey(SortBy(s, key), key, c) == WithKey(s, key, c)
    decreases |s|
  {
    if s != [] {
      var n := |s| - 1;
      var sorted := SortBy(s[..n], key);
      assert SortBy(s, key) == InsertBy(s[n], sorted, key);
      SortByStable(s[..n], key, c);
      InsertByStable(s[n], sorted, key, c);
      var tail := if key(s[n]) == c then [s[n]] else [];
      assert WithKey(s, key, c) == WithKey(s[..n], key, c) + tail;
    }
  }

  /** No two elements of `s` share a key. */
  ghost predicate DistinctKeys<T, K>(s: seq<T>, key: T -> K) {
    forall i, j :: 0 <= i < j < |s| ==> key(s[i]) != key(s[j])
  }

  /** A rearrangement of a sequence with distinct keys has distinct keys. */
  lemma {:induction false} DistinctKeysPermuted<T, K>(a: seq<T>, b: seq<T>, key: T -> K)
    requires multiset(a) == multiset(b) && DistinctKeys(a, key)
    ensures DistinctKeys(b, key)
    decreases |b|
  {
    if b != [] {
      var n := |b| - 1;
      var x := b[n];
      MultisetLast(b);
      assert x in multiset(a);
      var i :| 0 <= i < |a| && a[i] == x;
      var rest := a[..i] + a[i + 1..];
      MultisetRemove(a, i);
      DistinctKeysRemove(a, i, key);
      DistinctKeysPermuted(rest, b[..n], key);
      forall p, q | 0 <= p < q < |b|
        ensures key(b[p]) != key(b[q])
      {
        assert b[..n][p] == b[p];
        if q < n {
          assert b[..n][q] == b[q];
        } else {
          assert b[p] in multiset(rest);
        }
      }
    }
  }

  lemma MultisetLast<T>(b: seq<T>)
    requires b != []
    ensures multiset(b[..|b| - 1]) == multiset(b) - multiset{b[|b| - 1]}
    ensures b[|b| - 1] in multiset(b)
  {
    assert b == b[..|b| - 1] + [b[|b| - 1]];
  }

  lemma MultisetRemove<T>(a: seq<T>, i: nat)
    requires i < |a|
    ensures multiset(a[..i] + a[i + 1..]) == multiset(a) - multiset{a[i]}
  {
    assert a == a[..i] + [a[i]] + a[i + 1..];
  }

  /** Removing one element keeps the keys distinct, and none of the others has its key. */
  lemma DistinctKeysRemove<T, K>(a: seq<T>, i: nat, key: T -> K)
    requires i < |a| && DistinctKeys(a, key)
    ensures DistinctKeys(a[..i] + a[i + 1..], key)
    ensures forall y :: y in multiset(a[..i] + a[i + 1..]) ==> key(y) != key(a[i])
  {
    var rest := a[..i] + a[i + 1..];
    forall p, q | 0 <= p < q < |rest|
      ensures key(rest[p]) != key(rest[q])
    {
      var p' := if p < i then p else p + 1;
      var q' := if q < i then q else q + 1;
      assert rest[p] == a[p'] && rest[q] == a[q'];
    }
    forall y | y in multiset(rest)
      ensures key(y) != key(a[i])
    {
      assert y in rest;
      var k :| 0 <= k < |rest| && rest[k] == y;
      var k' := if k < i then k else k + 1;
      assert rest[k] == a[k'] && k' != i;
    }
  }

  /** Strictly ascending in code-point order, hence duplicate-free. */
  ghost predicate StrictlySorted(s: seq<string>) {
    forall i, j :: 0 <= i < j < |s| ==> LexLess(s[i], s[j])
  }

  lemma StrictlySortedDistinct(s: seq<string>)
    requires StrictlySorted(s)
    ensures forall i, j :: 0 <= i < j < |s| ==> s[i] != s[j]
  {
    forall i, j | 0 <= i < j < |s|
      ensures s[i] != s[j]
    {
      if s[i] == s[j] {
        LexLessIrreflexive(s[i]);
      }
    }
  }

  /** `s` with `x` added at its place, unless it is already there. */
  function InsertUnique(x: string, s: seq<string>): (r: seq<string>)
    requires StrictlySorted(s)
    ensures StrictlySorted(r)
    ensures forall y :: y in r <==> y in s || y == x
    decreases |s|
  {
    if s == [] then [x]
    else
      var n := |s| - 1;
      if s[n] == x then s
      else if LexLess(s[n], x) then
        var r := s + [x];
        forall i | 0 <= i < n
          ensures LexLess(r[i], x)
        {
          LexLessTransitive(s[i], s[n], x);
        }
        r
      else
        LexLessTotal(s[n], x);
        var t := InsertUnique(x, s[..n]);
        var r := t + [s[n]];
        assert s == s[..n] + [s[n]];
        forall i | 0 <= i < |t|
          ensures LexLess(r[i], s[n])
        {
          assert t[i] in s[..n] || t[i] == x;
          if t[i] != x {
            var k :| 0 <= k < n && s[k] == t[i];
          }
        }
        r
  }

  /** `sorted(set(s))`: the distinct elements of `s` in ascending order. */
  function SortedDistinct(s: seq<string>): (r: seq<string>)
    ensures StrictlySorted(r)
    ensures forall y :: y in r <==> y in s
    decreases |s|
  {
    if s == [] then []
    else
      var n := |s| - 1;
      assert s == s[..n] + [s[n]];
      InsertUnique(s[n], SortedDistinct(s[..n]))
  }

  lemma HeadIn(s: seq<string>)
    requires s != []
    ensures s[0] in s
  {
  }

  /** A strictly sorted list is determined by its elements: `sorted(set(s))` does not depend
      on the order or repetition of `s`. */
  lemma {:induction false} StrictlySortedUnique(a: seq<string>, b: seq<string>)
    requires StrictlySorted(a) && StrictlySorted(b)
    requires forall y :: y in a <==> y in b
    ensures a == b
    decreases |a|
  {
    if a != [] && b != [] {
      // the first elements are the least ones, so they agree
      assert a[0] in a && b[0] in b;
      var k :| 0 <= k < |a| && a[k] == b[0];
      var m :| 0 <= m < |b| && b[m] == a[0];
      if k > 0 && m > 0 {
        LexLessTransitive(a[0], b[0], a[0]);
        LexLessIrreflexive(a[0]);
        assert false;
      }
      assert a[0] == b[0];
      StrictlySortedDistinct(a);
      StrictlySortedDistinct(b);
      forall y
        ensures y in a[1..] <==> y in b[1..]
      {
        if y in a[1..] {
          var k :| 0 <= k < |a| - 1 && a[1..][k] == y;
          assert a[k + 1] == y && y != a[0] && y in b;
          var m :| 0 <= m < |b| && b[m] == y;
          assert m != 0;
          assert b[1..][m - 1] == y;
        }
        if y in b[1..] {
          var k :| 0 <= k < |b| - 1 && b[1..][k] == y;
          assert b[k + 1] == y && y != b[0] && y in a;
          var m :| 0 <= m < |a| && a[m] == y;
          assert m != 0;
          assert a[1..][m - 1] == y;
        }
      }
      StrictlySortedUnique(a[1..], b[1..]);
      assert a == [a[0]] + a[1..] && b == [b[0]] + b[1..];
    } else if a != [] {
      HeadIn(a);
      assert false;
    } else if b != [] {
      HeadIn(b);
      assert false;
    }
  }
}
