/**
  Stable sorting in descending order of a lexicographic key, and taking the
  first n of the result: what `stream().sorted(comparator).limit(n)` does
  when the comparator orders by one int descending and then by a second int
  descending. Java's sorted() on an ordered stream is stable, so records the
  comparator cannot tell apart keep their input order.
 */
module Ranking {

  /** The two ints a comparator looks at, most significant first. */
  datatype Key = Key(primary: int, secondary: int)

  /** `a` sorts strictly before `b` in descending order. */
  predicate Outranks(a: Key, b: Key)
  {
    a.primary > b.primary || (a.primary == b.primary && a.secondary > b.secondary)
  }

  /** `a` may sort before `b`: the comparator does not put `b` first. */
  predicate AtLeast(a: Key, b: Key) { !Outranks(b, a) }

  ghost predicate IsPrefix<T>(a: seq<T>, b: seq<T>) { |a| <= |b| && a == b[..|a|] }

  ghost predicate Descending<T>(s: seq<T>, key: T -> Key)
  {
    forall i, j :: 0 <= i < j < |s| ==> AtLeast(key(s[i]), key(s[j]))
  }

  /** Inserts `x` in front of the first element that does not outrank it, so
      `x` lands before every element with the same key. */
  function Insert<T>(x: T, s: seq<T>, key: T -> Key): (r: seq<T>)
    ensures |r| == |s| + 1
    ensures multiset(r) == multiset(s) + multiset{x}
  {
    if s == [] || AtLeast(key(x), key(s[0])) then [x] + s
    else
      assert s == [s[0]] + s[1..];
      [s[0]] + Insert(x, s[1..], key)
  }

  /** Stable insertion sort, descending by key. */
  function SortDescending<T>(s: seq<T>, key: T -> Key): (r: seq<T>)
    ensures |r| == |s|
    ensures multiset(r) == multiset(s)
  {
    if s == [] then []
    else
      assert s == [s[0]] + s[1..];
      Insert(s[0], SortDescending(s[1..], key), key)
  }

  /** The elements whose key is `k`, in their order in `s`. */
  function WithKey<T>(s: seq<T>, key: T -> Key, k: Key): (r: seq<T>)
  {
    if s == [] then []
    else (if key(s[0]) == k then [s[0]] else []) + WithKey(s[1..], key, k)
  }

  /** The first `n` elements of the stably sorted sequence (all of them if there
      are fewer), as `sorted(...).limit(n)`. */
  function TopN<T>(s: seq<T>, n: nat, key: T -> Key): (r: seq<T>)
  {
    var sorted := SortDescending(s, key);
    if |s| <= n then sorted else sorted[..n]
  }

  /** A sequence in descending order stays so with an element in front that
      is at least each of its elements. */
  lemma DescendingCons<T>(h: T, rest: seq<T>, key: T -> Key)
    requires Descending(rest, key)
    requires forall y :: y in multiset(rest) ==> AtLeast(key(h), key(y))
    ensures Descending([h] + rest, key)
  {
    forall i, j | 0 <= i < j < |[h] + rest|
      ensures AtLeast(key(([h] + rest)[i]), key(([h] + rest)[j]))
    {
      assert rest[j - 1] in multiset(rest);
      if i > 0 {
        assert rest[i - 1] == ([h] + rest)[i];
      }
    }
  }

  lemma {:induction false} InsertDescending<T>(x: T, s: seq<T>, key: T -> Key)
    requires Descending(s, key)
    ensures Descending(Insert(x, s, key), key)
  {
    if s != [] && !AtLeast(key(x), key(s[0])) {
      InsertDescending(x, s[1..], key);
      var rest := Insert(x, s[1..], key);
      forall y | y in multiset(rest) ensures AtLeast(key(s[0]), key(y)) {
        if y != x {
          assert y in multiset(s[1..]);
          var j :| 0 <= j < |s[1..]| && s[1..][j] == y;
          assert s[j + 1] == y;
        }
      }
      assert Descending(s[1..], key);
      DescendingCons(s[0], rest, key);
    } else if s != [] {
      forall y | y in multiset(s) ensures AtLeast(key(x), key(y)) {
        var j :| 0 <= j < |s| && s[j] == y;
        if j > 0 {
          assert AtLeast(key(s[0]), key(s[j]));
        }
      }
      DescendingCons(x, s, key);
    }
  }

  /** The sort is a permutation of its input and is in descending key order. */
  lemma {:induction false} SortDescendingSorted<T>(s: seq<T>, key: T -> Key)
    ensures |SortDescending(s, key)| == |s|
    ensures multiset(SortDescending(s, key)) == multiset(s)
    ensures Descending(SortDescending(s, key), key)
  {
    assert |multiset(SortDescending(s, key))| == |multiset(s)|;
    if s != [] {
      SortDescendingSorted(s[1..], key);
      InsertDescending(s[0], SortDescending(s[1..], key), key);
    }
  }

  lemma WithKeyCons<T>(x: T, s: seq<T>, key: T -> Key, k: Key)
    ensures WithKey([x] + s, key, k) == (if key(x) == k then [x] else []) + WithKey(s, key, k)
  {
    assert ([x] + s)[1..] == s;
  }

  /** Inserting adds `x` to the elements of its own key at the front and leaves
      the elements of every other key as they were. */
  lemma {:induction false} InsertWithKey<T>(x: T, s: seq<T>, key: T -> Key, k: Key)
    ensures WithKey(Insert(x, s, key), key, k)
         == (if key(x) == k then [x] else []) + WithKey(s, key, k)
  {
    if s == [] || AtLeast(key(x), key(s[0])) {
      assert Insert(x, s, key) == [x] + s;
      WithKeyCons(x, s, key, k);
    } else {
      var rest := Insert(x, s[1..], key);
      var head := if key(s[0]) == k then [s[0]] else [];
      InsertWithKey(x, s[1..], key, k);
      assert WithKey(Insert(x, s, key), key, k) == head + WithKey(rest, key, k) by {
        assert Insert(x, s, key) == [s[0]] + rest;
        WithKeyCons(s[0], rest, key, k);
      }
      assert WithKey(s, key, k) == head + WithKey(s[1..], key, k) by {
        WithKeyCons(s[0], s[1..], key, k);
        assert [s[0]] + s[1..] == s;
      }
      if key(x) == k {
        assert key(s[0]) != k && head == [];
        assert WithKey(rest, key, k) == [x] + WithKey(s[1..], key, k);
        assert [] + ([x] + WithKey(s[1..], key, k)) == [x] + WithKey(s[1..], key, k);
        assert [] + WithKey(s[1..], key, k) == WithKey(s[1..], key, k);
      } else {
        assert WithKey(rest, key, k) == [] + WithKey(s[1..], key, k) == WithKey(s[1..], key, k);
        assert [] + WithKey(s, key, k) == WithKey(s, key, k);
      }
    }
  }

  /** Stability: for every key, the elements carrying it appear in the sorted
      sequence exactly in their input order. */
  lemma {:induction false} SortDescendingStable<T>(s: seq<T>, key: T -> Key, k: Key)
    ensures WithKey(SortDescending(s, key), key, k) == WithKey(s, key, k)
  {
    if s != [] {
      SortDescendingStable(s[1..], key, k);
      InsertWithKey(s[0], SortDescending(s[1..], key), key, k);
    }
  }

  /** The elements of a given key in a prefix are a prefix of those in the whole. */
  lemma {:induction false} WithKeyPrefix<T>(s: seq<T>, n: nat, key: T -> Key, k: Key)
    requires n <= |s|
    ensures IsPrefix(WithKey(s[..n], key, k), WithKey(s, key, k))
  {
    if n > 0 {
      WithKeyPrefix(s[1..], n - 1, key, k);
      assert s[..n][1..] == s[1..][..n - 1];
    }
  }

  /** `limit(n)` keeps min(n, |s|) elements. */
  lemma TopNSize<T>(s: seq<T>, n: nat, key: T -> Key)
    ensures |TopN(s, n, key)| == if |s| <= n then |s| else n
  {
  }

  /** The top elements are a permutation of a prefix of the sorted sequence, so
      they are drawn from `s` without duplication, in descending key order. */
  lemma TopNFromInput<T>(s: seq<T>, n: nat, key: T -> Key)
    ensures multiset(TopN(s, n, key)) <= multiset(s)
    ensures Descending(TopN(s, n, key), key)
  {
    var sorted := SortDescending(s, key);
    SortDescendingSorted(s, key);
    var m := if |s| <= n then |s| else n;
    assert sorted == sorted[..m] + sorted[m..];
  }

  /** Nothing left out outranks anything taken. */
  lemma TopNNoneOmittedAbove<T>(s: seq<T>, n: nat, key: T -> Key)
    ensures var top := TopN(s, n, key);
      forall x, y :: x in multiset(s) - multiset(top) && y in top ==> AtLeast(key(y), key(x))
  {
    var sorted := SortDescending(s, key);
    SortDescendingSorted(s, key);
    var m := if |s| <= n then |s| else n;
    var top := TopN(s, n, key);
    assert top == sorted[..m];
    assert sorted == sorted[..m] + sorted[m..];
    assert multiset(s) == multiset(top) + multiset(sorted[m..]);
    forall x, y | x in multiset(s) - multiset(top) && y in top
      ensures AtLeast(key(y), key(x))
    {
      assert x in multiset(sorted[m..]);
      var j :| 0 <= j < |sorted[m..]| && sorted[m..][j] == x;
      var i :| 0 <= i < m && top[i] == y;
      assert sorted[m + j] == x && sorted[i] == y;
    }
  }

  /** Elements of equal key keep their input order: for each key, those taken
      are the first ones of that key in `s`. */
  lemma TopNStable<T>(s: seq<T>, n: nat, key: T -> Key, k: Key)
    ensures IsPrefix(WithKey(TopN(s, n, key), key, k), WithKey(s, key, k))
  {
    var sorted := SortDescending(s, key);
    var m := if |s| <= n then |s| else n;
    assert TopN(s, n, key) == sorted[..m];
    WithKeyPrefix(sorted, m, key, k);
    SortDescendingStable(s, key, k);
  }
}
