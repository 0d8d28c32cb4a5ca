/** Python list operations the search path uses: `list.sort(key=..., reverse=True)` and slicing. */
module Lists {

  ghost predicate SortedDesc<T>(xs: seq<T>, key: T -> real) {
    forall i, j | 0 <= i < j < |xs| :: key(xs[i]) >= key(xs[j])
  }

  /** Puts `x` right after the last element whose key is at least `key(x)`, so equal keys keep their order. */
  function InsertDesc<T>(sorted: seq<T>, x: T, key: T -> real): (r: seq<T>)
    ensures |r| == |sorted| + 1
  {
    if sorted == [] then [x]
    else if key(sorted[|sorted| - 1]) >= key(x) then sorted + [x]
    else InsertDesc(sorted[..|sorted| - 1], x, key) + [sorted[|sorted| - 1]]
  }

  lemma {:induction false} InsertDescKeeps<T>(sorted: seq<T>, x: T, key: T -> real)
    ensures multiset(InsertDesc(sorted, x, key)) == multiset(sorted) + multiset{x}
    ensures forall y | y in InsertDesc(sorted, x, key) :: y in sorted || y == x
    ensures SortedDesc(sorted, key) ==> SortedDesc(InsertDesc(sorted, x, key), key)
  {
    if sorted != [] && key(sorted[|sorted| - 1]) < key(x) {
      var last := sorted[|sorted| - 1];
      var init := sorted[..|sorted| - 1];
      assert sorted == init + [last];
      InsertDescKeeps(init, x, key);
      var r := InsertDesc(sorted, x, key);
      var r' := InsertDesc(init, x, key);
      assert r == r' + [last];
      assert multiset(r) == multiset(r') + multiset{last};
      if SortedDesc(sorted, key) {
        SortedAboveLast(sorted, key);
        InsertAboveLast(r', last, key, init, x);
      }
    }
  }

  lemma SortedAboveLast<T>(sorted: seq<T>, key: T -> real)
    requires sorted != [] && SortedDesc(sorted, key)
    ensures SortedDesc(sorted[..|sorted| - 1], key)
    ensures forall y | y in sorted[..|sorted| - 1] :: key(y) >= key(sorted[|sorted| - 1])
  {
    var init := sorted[..|sorted| - 1];
    forall y | y in init ensures key(y) >= key(sorted[|sorted| - 1]) {
      var k :| 0 <= k < |init| && init[k] == y;
      assert sorted[k] == y;
    }
  }

  /** Appending an element no larger than anything before it keeps the order. */
  lemma InsertAboveLast<T>(r': seq<T>, last: T, key: T -> real, init: seq<T>, x: T)
    requires SortedDesc(r', key)
    requires forall y | y in r' :: y in init || y == x
    requires forall y | y in init :: key(y) >= key(last)
    requires key(last) < key(x)
    ensures SortedDesc(r' + [last], key)
  {
    var r := r' + [last];
    forall i, j | 0 <= i < j < |r| ensures key(r[i]) >= key(r[j]) {
      if j < |r| - 1 {
        assert r[i] == r'[i] && r[j] == r'[j];
      } else {
        assert r[i] in r';
      }
    }
  }

  /** The stable sort Python performs for `xs.sort(key=key, reverse=True)`: largest key first. */
  function SortDesc<T>(xs: seq<T>, key: T -> real): (r: seq<T>)
    ensures |r| == |xs|
  {
    if xs == [] then [] else InsertDesc(SortDesc(xs[..|xs| - 1], key), xs[|xs| - 1], key)
  }

  /** Sorting yields a permutation of its input in non-increasing key order. */
  lemma {:induction false} SortDescCorrect<T>(xs: seq<T>, key: T -> real)
    ensures multiset(SortDesc(xs, key)) == multiset(xs)
    ensures SortedDesc(SortDesc(xs, key), key)
  {
    if xs != [] {
      var init := xs[..|xs| - 1];
      assert xs == init + [xs[|xs| - 1]];
      SortDescCorrect(init, key);
      InsertDescKeeps(SortDesc(init, key), xs[|xs| - 1], key);
    }
  }

  /** The elements of `xs` whose key is `v`, in their order in `xs`. */
  function WithKey<T>(xs: seq<T>, key: T -> real, v: real): seq<T> {
    if xs == [] then []
    else WithKey(xs[..|xs| - 1], key, v) + (if key(xs[|xs| - 1]) == v then [xs[|xs| - 1]] else [])
  }

  lemma WithKeySnoc<T>(xs: seq<T>, y: T, key: T -> real, v: real)
    ensures WithKey(xs + [y], key, v) == WithKey(xs, key, v) + (if key(y) == v then [y] else [])
  {
    assert (xs + [y])[..|xs|] == xs;
  }

  /** Inserting `x` passes over only elements with a smaller key, so among equal keys it lands last. */
  lemma {:induction false} InsertDescWithKey<T>(sorted: seq<T>, x: T, key: T -> real, v: real)
    ensures WithKey(InsertDesc(sorted, x, key), key, v) == WithKey(sorted, key, v) + (if key(x) == v then [x] else [])
    decreases |sorted|
  {
    if sorted == [] {
      assert InsertDesc(sorted, x, key) == [] + [x];
      WithKeySnoc([], x, key, v);
    } else {
      var last := sorted[|sorted| - 1];
      var init := sorted[..|sorted| - 1];
      assert sorted == init + [last];
      if key(last) >= key(x) {
        WithKeySnoc(sorted, x, key, v);
      } else {
        InsertDescWithKey(init, x, key, v);
        WithKeySnoc(InsertDesc(init, x, key), last, key, v);
        WithKeySnoc(init, last, key, v);
      }
    }
  }

  /** The sort is stable: for every key value, the elements with that key keep their relative order. */
  lemma {:induction false} SortDescStable<T>(xs: seq<T>, key: T -> real, v: real)
    ensures WithKey(SortDesc(xs, key), key, v) == WithKey(xs, key, v)
  {
    if xs != [] {
      var init := xs[..|xs| - 1];
      var last := xs[|xs| - 1];
      assert xs == init + [last];
      SortDescStable(init, key, v);
      InsertDescWithKey(SortDesc(init, key), last, key, v);
      WithKeySnoc(init, last, key, v);
    }
  }

  /** A prefix of a sequence sorted by decreasing key holds the best elements: none of the rest has a larger key. */
  lemma SortedPrefixIsBest<T>(xs: seq<T>, key: T -> real, m: nat)
    requires SortedDesc(xs, key) && m <= |xs|
    ensures multiset(xs[..m]) <= multiset(xs)
    ensures forall h, s | h in xs[..m] && s in multiset(xs) - multiset(xs[..m]) :: key(h) >= key(s)
  {
    var rest := xs[m..];
    assert xs == xs[..m] + rest;
    assert multiset(xs) - multiset(xs[..m]) == multiset(rest);
    forall h, s | h in xs[..m] && s in multiset(xs) - multiset(xs[..m]) ensures key(h) >= key(s) {
      var i :| 0 <= i < m && xs[..m][i] == h;
      assert s in rest;
      var j :| 0 <= j < |rest| && rest[j] == s;
      assert xs[i] == h && xs[m + j] == s;
    }
  }

  /** Python's `xs[:k]`: a negative `k` drops that many elements from the end. */
  function Prefix<T>(xs: seq<T>, k: int): (r: seq<T>)
    ensures |r| <= |xs|
    ensures k >= 0 ==> |r| == if k < |xs| then k else |xs|
    ensures r == xs[..|r|]
  {
    if k >= 0 then (if k < |xs| then xs[..k] else xs)
    else if |xs| + k > 0 then xs[..|xs| + k]
    else []
  }

  /** `list(range(n))`. */
  function Range(n: nat): (r: seq<nat>)
    ensures |r| == n
  {
    if n == 0 then [] else Range(n - 1) + [n - 1]
  }

  function Min(a: int, b: int): int {
    if a <= b then a else b
  }

  function Max(a: int, b: int): int {
    if a >= b then a else b
  }

  /** `xs.index(x)`: the position of the first `x`. */
  function FirstIndex<T(==)>(xs: seq<T>, x: T): (r: nat)
    requires x in xs
    ensures r < |xs| && xs[r] == x && x !in xs[..r]
  {
    if xs[0] == x then 0
    else
      var r := 1 + FirstIndex(xs[1..], x);
      assert xs[..r] == [xs[0]] + xs[1..][..r - 1];
      r
  }

  lemma FirstIndexUnique<T>(xs: seq<T>, x: T, r: nat)
    requires r < |xs| && xs[r] == x && x !in xs[..r]
    ensures FirstIndex(xs, x) == r
  {
  }

  lemma FirstIndexPrefix<T>(xs: seq<T>, x: T, n: nat)
    requires n <= |xs| && x in xs[..n]
    ensures x in xs && FirstIndex(xs, x) == FirstIndex(xs[..n], x)
  {
    var r := FirstIndex(xs[..n], x);
    assert xs[..n][..r] == xs[..r];
    FirstIndexUnique(xs, x, r);
  }

  /** Each of `0 .. n-1` occurs exactly once in `range(n)`, and nothing else does. */
  lemma {:induction false} RangeCounts(n: nat, x: nat)
    ensures multiset(Range(n))[x] == if x < n then 1 else 0
  {
    if n > 0 {
      var m: nat := n - 1;
      RangeCounts(m, x);
      assert Range(n) == Range(m) + [m];
      CountSnoc(Range(m), m, x);
    }
  }

  lemma CountSnoc<T>(xs: seq<T>, y: T, x: T)
    ensures multiset(xs + [y])[x] == multiset(xs)[x] + if x == y then 1 else 0
  {
    assert multiset(xs + [y]) == multiset(xs) + multiset{y};
  }

  /** A rearrangement of `range(n)` holds each index below `n` once. */
  lemma PermutationOfRange(s: seq<nat>, n: nat)
    requires multiset(s) == multiset(Range(n))
    ensures |s| == n
    ensures forall k | 0 <= k < |s| :: s[k] < n
    ensures forall k, l | 0 <= k < l < |s| :: s[k] != s[l]
    ensures forall x | 0 <= x < n :: x in s
  {
    assert |s| == |multiset(s)| == |multiset(Range(n))| == |Range(n)|;
    forall k | 0 <= k < |s| ensures s[k] < n {
      assert s[k] in multiset(s);
      RangeCounts(n, s[k]);
    }
    forall k, l | 0 <= k < l < |s| ensures s[k] != s[l] {
      if s[k] == s[l] {
        var x := s[k];
        assert s == s[..l] + [x] + s[l + 1..];
        assert x in s[..l] by { assert s[..l][k] == x; }
        assert multiset(s)[x] == multiset(s[..l])[x] + 1 + multiset(s[l + 1..])[x];
        RangeCounts(n, x);
      }
    }
    forall x | 0 <= x < n ensures x in s {
      RangeCounts(n, x);
      assert x in multiset(s);
    }
  }

  /** A sequence already in non-increasing key order is left as it is by the stable sort. */
  lemma {:induction false} SortDescOfSorted<T>(xs: seq<T>, key: T -> real)
    requires SortedDesc(xs, key)
    ensures SortDesc(xs, key) == xs
  {
    if xs != [] {
      var init := xs[..|xs| - 1];
      assert SortedDesc(init, key);
      SortDescOfSorted(init, key);
      assert xs == init + [xs[|xs| - 1]];
    }
  }

  lemma AppendAssoc<T>(a: seq<T>, b: seq<T>, c: seq<T>)
    ensures a + (b + c) == (a + b) + c
  {
  }
}
