/** The JavaScript array operations the handlers use on query results:
    `Array.prototype.sort` with a descending numeric comparator (`(a, b) =>
    key(b) - key(a)`, which the language requires to be stable) and
    `Array.prototype.slice`. */
module JsArray {

  /** Every element's key is at least the key of every later element. */
  predicate SortedDesc<T>(s: seq<T>, key: T -> int) {
    forall i, j :: 0 <= i < j < |s| ==> key(s[i]) >= key(s[j])
  }

  /** The elements of `s` whose key is `k`, in their order in `s`. */
  function WithKey<T>(s: seq<T>, key: T -> int, k: int): (r: seq<T>)
    ensures |r| <= |s|
    ensures forall i :: 0 <= i < |r| ==> key(r[i]) == k && r[i] in s
  {
    if s == [] then []
    else if key(s[0]) == k then [s[0]] + WithKey(s[1..], key, k)
    else WithKey(s[1..], key, k)
  }

  /** `s.filter(p)`, or a `find` with that condition over a collection: the
      elements satisfying `p`, in their order. */
  function Filter<T>(s: seq<T>, p: T -> bool): (r: seq<T>)
    ensures |r| <= |s|
    ensures forall i :: 0 <= i < |r| ==> r[i] in s && p(r[i])
    ensures forall i :: 0 <= i < |s| && p(s[i]) ==> s[i] in r
  {
    if s == [] then [] else (if p(s[0]) then [s[0]] else []) + Filter(s[1..], p)
  }

  /** A condition every element meets filters nothing out. */
  lemma {:induction false} FilterKeepsAll<T>(s: seq<T>, p: T -> bool)
    requires forall i :: 0 <= i < |s| ==> p(s[i])
    ensures Filter(s, p) == s
  {
    if s != [] {
      FilterKeepsAll(s[1..], p);
      assert [s[0]] + s[1..] == s;
    }
  }

  /** Filtering a sorted list keeps it sorted. */
  lemma {:induction false} FilterSorted<T>(s: seq<T>, p: T -> bool, key: T -> int)
    requires SortedDesc(s, key)
    ensures SortedDesc(Filter(s, p), key)
  {
    if s != [] {
      FilterSorted(s[1..], p, key);
      var t := Filter(s[1..], p);
      if p(s[0]) {
        HeadBounds(s, key);
        assert Filter(s, p) == [s[0]] + t;
        SortedCons(s[0], t, key);
      }
    }
  }

  /** Filtering depends only on the condition's values on the elements. */
  lemma {:induction false} FilterCongruent<T>(s: seq<T>, p: T -> bool, q: T -> bool)
    requires forall x :: x in s ==> p(x) == q(x)
    ensures Filter(s, p) == Filter(s, q)
  {
    if s != [] {
      FilterCongruent(s[1..], p, q);
    }
  }

  /** Filtering twice is filtering once by both conditions. */
  lemma {:induction false} FilterFilter<T>(s: seq<T>, p: T -> bool, q: T -> bool, pq: T -> bool)
    requires forall x :: pq(x) == (p(x) && q(x))
    ensures Filter(Filter(s, p), q) == Filter(s, pq)
  {
    if s != [] {
      FilterFilter(s[1..], p, q, pq);
      var t := Filter(s[1..], p);
      if p(s[0]) {
        assert ([s[0]] + t)[1..] == t;
      } else {
        assert [] + t == t;
      }
    }
  }

  /** Places `x` in front of the first element whose key is not greater. */
  function Insert<T>(x: T, s: seq<T>, key: T -> int): (r: seq<T>)
    ensures multiset(r) == multiset(s) + multiset{x}
  {
    if s == [] || key(x) >= key(s[0]) then
      [x] + s
    else
      assert s == [s[0]] + s[1..];
      [s[0]] + Insert(x, s[1..], key)
  }

  /** The head of a sorted list has the greatest key. */
  lemma HeadBounds<T>(s: seq<T>, key: T -> int)
    requires s != [] && SortedDesc(s, key)
    ensures forall y :: y in s[1..] ==> key(s[0]) >= key(y)
  {
    forall y | y in s[1..] ensures key(s[0]) >= key(y) {
      var k :| 0 <= k < |s[1..]| && s[1..][k] == y;
      assert s[k + 1] == y;
    }
  }

  /** An element with a key at least every key of a sorted list may lead it. */
  lemma SortedCons<T>(x: T, t: seq<T>, key: T -> int)
    requires SortedDesc(t, key)
    requires forall y :: y in t ==> key(x) >= key(y)
    ensures SortedDesc([x] + t, key)
  {
    var r := [x] + t;
    forall i, j | 0 <= i < j < |r| ensures key(r[i]) >= key(r[j]) {
      assert r[j] == t[j - 1];
      if i > 0 {
        assert r[i] == t[i - 1];
      }
    }
  }

  /** Inserting into a sorted list keeps it sorted. */
  lemma {:induction false} InsertSorted<T>(x: T, s: seq<T>, key: T -> int)
    requires SortedDesc(s, key)
    ensures SortedDesc(Insert(x, s, key), key)
  {
    if s != [] && key(x) < key(s[0]) {
      var t := Insert(x, s[1..], key);
      InsertSorted(x, s[1..], key);
      HeadBounds(s, key);
      forall y | y in t ensures key(s[0]) >= key(y) {
        assert y in multiset(t);
        if y != x {
          assert y in multiset(s[1..]);
        }
      }
      SortedCons(s[0], t, key);
    }
  }

  /** `s.sort((a, b) => key(b) - key(a))`. */
  function SortDesc<T>(s: seq<T>, key: T -> int): (r: seq<T>)
    ensures multiset(r) == multiset(s)
    ensures SortedDesc(r, key)
  {
    if s == [] then [] else
      assert s == [s[0]] + s[1..];
      var t := SortDesc(s[1..], key);
      InsertSorted(s[0], t, key);
      Insert(s[0], t, key)
  }

  /** Inserting passes over greater keys only, so `x` lands in front of every
      element with its own key. */
  lemma {:induction false} InsertStable<T>(x: T, s: seq<T>, key: T -> int, k: int)
    ensures WithKey(Insert(x, s, key), key, k)
         == if key(x) == k then [x] + WithKey(s, key, k) else WithKey(s, key, k)
  {
    if s == [] || key(x) >= key(s[0]) {
      assert ([x] + s)[1..] == s;
    } else {
      var t := Insert(x, s[1..], key);
      assert ([s[0]] + t)[1..] == t;
      InsertStable(x, s[1..], key, k);
    }
  }

  /** The sort is stable: elements with equal keys keep their relative order. */
  lemma {:induction false} SortStable<T>(s: seq<T>, key: T -> int, k: int)
    ensures WithKey(SortDesc(s, key), key, k) == WithKey(s, key, k)
  {
    if s != [] {
      SortStable(s[1..], key, k);
      InsertStable(s[0], SortDesc(s[1..], key), key, k);
    }
  }

  /** The index `slice` makes of a relative position: negative counts from the end,
      and the result is clamped to the array. */
  function RelativeIndex(i: int, len: nat): (r: nat)
    ensures r <= len
    ensures 0 <= i <= len ==> r == i
    ensures i > len ==> r == len
    ensures i < 0 ==> r == if len + i < 0 then 0 else len + i
  {
    if i < 0 then (if len + i < 0 then 0 else len + i)
    else if i > len then len
    else i
  }

  /** `s.slice(start, end)`. */
  function Slice<T>(s: seq<T>, start: int, end: int): (r: seq<T>)
    ensures |r| <= |s|
    ensures var a, b := RelativeIndex(start, |s|), RelativeIndex(end, |s|);
      if a < b then r == s[a..b] else r == []
  {
    var a, b := RelativeIndex(start, |s|), RelativeIndex(end, |s|);
    if a < b then s[a..b] else []
  }

  /** Consecutive pages of a list cover the list in order. */
  lemma SliceConcat<T>(s: seq<T>, a: nat, b: nat, c: nat)
    requires a <= b <= c
    ensures Slice(s, a, b) + Slice(s, b, c) == Slice(s, a, c)
  {
  }

  /** `slice(0, n)` keeps the first `n` elements. */
  lemma SlicePrefix<T>(s: seq<T>, n: nat)
    ensures |Slice(s, 0, n)| == if n < |s| then n else |s|
    ensures Slice(s, 0, n) <= s
  {
  }

  /** `s.sort((a, b) => key(b) - key(a)).slice(0, k)`, which is also what a query
      with `.sort({ key: -1 }).limit(k)` returns: the first `k` in descending
      order of key. */
  function Top<T>(s: seq<T>, key: T -> int, k: nat): (r: seq<T>)
    ensures |r| == if k < |s| then k else |s|
    ensures SortedDesc(r, key)
    ensures forall x :: x in r ==> x in s
  {
    var t := SortDesc(s, key);
    assert |t| == |s| by { assert |multiset(t)| == |multiset(s)|; }
    SlicePrefix(t, k);
    var r := Slice(t, 0, k);
    forall x | x in r ensures x in s {
      assert x in multiset(t);
    }
    r
  }

  /** An element left out of the top `k` has no greater key than any kept, and
      is left out only when there are more than `k` elements. */
  lemma TopNewest<T>(s: seq<T>, key: T -> int, k: nat, x: T)
    requires x in s && x !in Top(s, key, k)
    ensures forall y :: y in Top(s, key, k) ==> key(y) >= key(x)
    ensures |s| > k
  {
    var t := SortDesc(s, key);
    var r := Top(s, key, k);
    assert |t| == |s| by { assert |multiset(t)| == |multiset(s)|; }
    assert x in multiset(t);
    var j :| 0 <= j < |t| && t[j] == x;
    assert r == t[..|r|];
    forall y | y in r ensures key(y) >= key(x) {
      var i :| 0 <= i < |r| && r[i] == y;
      assert t[i] == y;
    }
  }

  /** Sorting keeps the length. */
  lemma SortDescLength<T>(s: seq<T>, key: T -> int)
    ensures |SortDesc(s, key)| == |s|
  {
    assert |multiset(SortDesc(s, key))| == |multiset(s)|;
  }

  /** The top `k` take each element at most as often as the input holds it. */
  lemma TopSubMultiset<T>(s: seq<T>, key: T -> int, k: nat)
    ensures multiset(Top(s, key, k)) <= multiset(s)
  {
    var t := SortDesc(s, key);
    var r := Top(s, key, k);
    SlicePrefix(t, k);
    assert r <= t;
    assert t == r + t[|r|..];
    assert multiset(t) == multiset(r) + multiset(t[|r|..]);
  }

  /** Every element left out of the top `k` has no greater key than any kept. */
  lemma TopNewestAll<T>(s: seq<T>, key: T -> int, k: nat)
    ensures forall x, y :: x in s && x !in Top(s, key, k) && y in Top(s, key, k) ==> key(y) >= key(x)
  {
    forall x, y | x in s && x !in Top(s, key, k) && y in Top(s, key, k) ensures key(y) >= key(x) {
      TopNewest(s, key, k, x);
    }
  }

  // ---------------------------------------------------------------------------
  // Counting by key, to compare sorted lists position by position

  /** `min(n, k)`. */
  function AtMost(n: nat, k: nat): nat {
    if n < k then n else k
  }

  /** How many elements have a key of at least `x`. */
  function CountAtLeast<T>(s: seq<T>, key: T -> int, x: int): (r: nat)
    ensures r <= |s|
  {
    if s == [] then 0 else (if key(s[0]) >= x then 1 else 0) + CountAtLeast(s[1..], key, x)
  }

  lemma {:induction false} CountAppend<T>(a: seq<T>, b: seq<T>, key: T -> int, x: int)
    ensures CountAtLeast(a + b, key, x) == CountAtLeast(a, key, x) + CountAtLeast(b, key, x)
  {
    if a == [] {
      assert a + b == b;
    } else {
      assert (a + b)[1..] == a[1..] + b;
      CountAppend(a[1..], b, key, x);
    }
  }

  /** The count depends only on which elements there are, not on their order. */
  lemma {:induction false} CountPerm<T>(a: seq<T>, b: seq<T>, key: T -> int, x: int)
    requires multiset(a) == multiset(b)
    ensures CountAtLeast(a, key, x) == CountAtLeast(b, key, x)
  {
    if a == [] {
      assert |multiset(b)| == 0;
    } else {
      assert a[0] in multiset(b);
      var j :| 0 <= j < |b| && b[j] == a[0];
      PermTail(a, b, j);
      CountPerm(a[1..], b[..j] + b[j + 1..], key, x);
      CountRemove(b, j, key, x);
    }
  }

  /** Taking the head off one list and the same element off another that holds
      the same elements leaves two lists that still do. */
  lemma PermTail<T>(a: seq<T>, b: seq<T>, j: nat)
    requires multiset(a) == multiset(b) && a != [] && j < |b| && b[j] == a[0]
    ensures multiset(a[1..]) == multiset(b[..j] + b[j + 1..])
  {
    MultisetRemove(a, 0);
    MultisetRemove(b, j);
    assert a[..0] + a[1..] == a[1..];
  }

  lemma MultisetRemove<T>(s: seq<T>, j: nat)
    requires j < |s|
    ensures multiset(s[..j] + s[j + 1..]) == multiset(s) - multiset{s[j]}
  {
    assert s == s[..j] + [s[j]] + s[j + 1..];
    assert multiset(s) == multiset(s[..j] + s[j + 1..]) + multiset{s[j]};
  }

  lemma CountRemove<T>(s: seq<T>, j: nat, key: T -> int, x: int)
    requires j < |s|
    ensures CountAtLeast(s, key, x) == CountAtLeast(s[..j] + s[j + 1..], key, x) + (if key(s[j]) >= x then 1 else 0)
  {
    var pre, post := s[..j], s[j + 1..];
    assert s == pre + [s[j]] + post;
    CountAppend(pre + [s[j]], post, key, x);
    CountAppend(pre, [s[j]], key, x);
    CountAppend(pre, post, key, x);
    assert [s[j]][1..] == [];
  }

  /** A list sorted by descending key whose head is below `x` has nothing at least `x`. */
  lemma {:induction false} SortedCountZero<T>(s: seq<T>, key: T -> int, x: int)
    requires SortedDesc(s, key) && (s == [] || key(s[0]) < x)
    ensures CountAtLeast(s, key, x) == 0
  {
    if s != [] {
      assert SortedDesc(s[1..], key);
      if |s| > 1 {
        assert key(s[1]) <= key(s[0]);
      }
      SortedCountZero(s[1..], key, x);
    }
  }

  /** In a list sorted by descending key, position `i` holds a key of at least
      `x` exactly when more than `i` elements do. */
  lemma {:induction false} SortedCountIndex<T>(s: seq<T>, key: T -> int, x: int, i: nat)
    requires SortedDesc(s, key) && i < |s|
    ensures key(s[i]) >= x <==> CountAtLeast(s, key, x) > i
  {
    if key(s[0]) < x {
      SortedCountZero(s, key, x);
      assert key(s[i]) <= key(s[0]);
    } else if i > 0 {
      assert SortedDesc(s[1..], key);
      SortedCountIndex(s[1..], key, x, i - 1);
      assert s[1..][i - 1] == s[i];
    }
  }

  /** The first `n` of a sorted list hold as many keys of at least `x` as the
      list does, up to `n`. */
  lemma {:induction false} SortedPrefixCount<T>(s: seq<T>, key: T -> int, x: int, n: nat)
    requires SortedDesc(s, key) && n <= |s|
    ensures CountAtLeast(s[..n], key, x) == AtMost(CountAtLeast(s, key, x), n)
  {
    if n == 0 {
      assert s[..0] == [];
    } else if key(s[0]) < x {
      SortedCountZero(s, key, x);
      assert SortedDesc(s[..n], key);
      SortedCountZero(s[..n], key, x);
    } else {
      assert SortedDesc(s[1..], key);
      SortedPrefixCount(s[1..], key, x, n - 1);
      assert s[..n][1..] == s[1..][..n - 1];
    }
  }

  /** The top `k` hold as many keys of at least `x` as the whole list, up to `k`. */
  lemma TopCount<T>(s: seq<T>, key: T -> int, k: nat, x: int)
    ensures CountAtLeast(Top(s, key, k), key, x) == AtMost(CountAtLeast(s, key, x), k)
  {
    var t := SortDesc(s, key);
    assert |t| == |s| by { assert |multiset(t)| == |multiset(s)|; }
    var m := if k < |t| then k else |t|;
    assert Top(s, key, k) == t[..m];
    CountPerm(t, s, key, x);
    SortedPrefixCount(t, key, x, m);
  }

  /** Two sorted lists that agree, up to `n`, on how many keys of at least `x`
      they hold for every `x`, and on their length, hold the same key at each of
      their first `n` positions. */
  lemma SortedAgree<T>(c: seq<T>, d: seq<T>, key: T -> int, n: nat)
    requires SortedDesc(c, key) && SortedDesc(d, key)
    requires forall x :: AtMost(CountAtLeast(c, key, x), n) == AtMost(CountAtLeast(d, key, x), n)
    requires AtMost(|c|, n) == AtMost(|d|, n)
    ensures forall i :: 0 <= i < n && i < |c| ==> i < |d| && key(c[i]) == key(d[i])
  {
    forall i | 0 <= i < n && i < |c| ensures i < |d| && key(c[i]) == key(d[i]) {
      var x, y := key(c[i]), key(d[i]);
      SortedCountIndex(c, key, x, i);
      SortedCountIndex(d, key, x, i);
      SortedCountIndex(c, key, y, i);
      SortedCountIndex(d, key, y, i);
    }
  }
}
