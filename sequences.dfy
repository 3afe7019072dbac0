/** Sequence operations behind the DataFrame idioms the pages use: boolean-mask
    selection (`df[mask]`), `unique()`, `sorted`/`sort_values`, `value_counts()`
    and the `max`/`min`/`sum` reductions. */
module Sequences {

  /** `r` is `s` with some elements deleted; the rest keep their order. */
  ghost predicate IsSubsequence<T>(r: seq<T>, s: seq<T>)
    decreases |s|
  {
    r == [] || (s != [] && (IsSubsequence(r, s[1..]) || (r[0] == s[0] && IsSubsequence(r[1..], s[1..]))))
  }

  lemma {:induction false} SubsequenceRefl<T>(s: seq<T>)
    ensures IsSubsequence(s, s)
  {
    if s != [] {
      SubsequenceRefl(s[1..]);
    }
  }

  lemma {:induction false} SubsequenceTransitive<T>(a: seq<T>, b: seq<T>, c: seq<T>)
    requires IsSubsequence(a, b) && IsSubsequence(b, c)
    ensures IsSubsequence(a, c)
    decreases |c|
  {
    if a == [] {
    } else if IsSubsequence(b, c[1..]) {
      SubsequenceTransitive(a, b, c[1..]);
    } else {
      // b[0] == c[0] and b[1..] is a subsequence of c[1..]
      if IsSubsequence(a, b[1..]) {
        SubsequenceTransitive(a, b[1..], c[1..]);
      } else {
        SubsequenceTransitive(a[1..], b[1..], c[1..]);
      }
    }
  }

  lemma {:induction false} SubsequenceLength<T>(r: seq<T>, s: seq<T>)
    requires IsSubsequence(r, s)
    ensures |r| <= |s|
    decreases |s|
  {
    if r != [] {
      if IsSubsequence(r, s[1..]) {
        SubsequenceLength(r, s[1..]);
      } else {
        SubsequenceLength(r[1..], s[1..]);
      }
    }
  }

  /** A subsequence that keeps every element is the whole sequence. */
  lemma {:induction false} SubsequenceKeepingAll<T>(r: seq<T>, s: seq<T>)
    requires IsSubsequence(r, s) && multiset(r) == multiset(s)
    ensures r == s
    decreases |s|
  {
    assert |r| == |multiset(r)| == |multiset(s)| == |s|;
    if r != [] {
      if IsSubsequence(r, s[1..]) {
        SubsequenceLength(r, s[1..]);
      } else {
        assert r[0] == s[0];
        assert r == [r[0]] + r[1..] && s == [s[0]] + s[1..];
        assert multiset(r) == multiset([r[0]]) + multiset(r[1..]);
        assert multiset(s) == multiset([s[0]]) + multiset(s[1..]);
        forall x ensures multiset(r[1..])[x] == multiset(s[1..])[x] {
          assert multiset(r)[x] == multiset([r[0]])[x] + multiset(r[1..])[x];
          assert multiset(s)[x] == multiset([s[0]])[x] + multiset(s[1..])[x];
        }
        assert multiset(r[1..]) == multiset(s[1..]);
        SubsequenceKeepingAll(r[1..], s[1..]);
      }
    }
  }

  /** A selection by a mask every element passes is the whole sequence. */
  lemma SelectionOfAll<T(!new)>(r: seq<T>, s: seq<T>, p: T -> bool)
    requires IsSubsequence(r, s) && forall x :: multiset(r)[x] == if p(x) then multiset(s)[x] else 0
    requires forall x :: x in s ==> p(x)
    ensures r == s
  {
    forall x ensures multiset(r)[x] == multiset(s)[x] {
      if !p(x) {
        assert x !in s;
      }
    }
    assert multiset(r) == multiset(s);
    SubsequenceKeepingAll(r, s);
  }

  /** `s[mask]` where the mask is `p`: the elements satisfying `p`, in order. */
  function Keep<T(!new)>(s: seq<T>, p: T -> bool): (r: seq<T>)
    ensures |r| <= |s|
    ensures IsSubsequence(r, s)
    ensures forall x :: x in r <==> x in s && p(x)
    ensures forall x :: multiset(r)[x] == if p(x) then multiset(s)[x] else 0
  {
    if s == [] then []
    else
      assert s == [s[0]] + s[1..];
      if p(s[0]) then [s[0]] + Keep(s[1..], p) else Keep(s[1..], p)
  }

  /** A mask applied to the result of another selects what both masks select. */
  lemma SelectTwice<T(!new)>(s: seq<T>, mid: seq<T>, r: seq<T>, p: T -> bool, q: T -> bool)
    requires IsSubsequence(mid, s) && forall x :: multiset(mid)[x] == if p(x) then multiset(s)[x] else 0
    requires IsSubsequence(r, mid) && forall x :: multiset(r)[x] == if q(x) then multiset(mid)[x] else 0
    ensures IsSubsequence(r, s)
    ensures forall x :: multiset(r)[x] == if p(x) && q(x) then multiset(s)[x] else 0
  {
    SubsequenceTransitive(r, mid, s);
  }

  predicate Distinct<T(==)>(s: seq<T>) {
    forall i, j :: 0 <= i < j < |s| ==> s[i] != s[j]
  }

  /** `r` lists its elements in the order of their first occurrences in `s`:
      whatever precedes an element of `r` already occurred in `s` before any
      occurrence of that element. */
  predicate InFirstAppearanceOrder<T(==)>(r: seq<T>, s: seq<T>) {
    forall i, k :: 0 <= i < |r| && 0 <= k < |s| && s[k] == r[i] ==>
      forall m :: 0 <= m < i ==> r[m] in s[..k]
  }

  /** The elements of `s` outside `seen`, each once, in order of first appearance. */
  function UniqueExcept<T(==,!new)>(s: seq<T>, seen: set<T>): (r: seq<T>)
    ensures Distinct(r)
    ensures forall x :: x in r <==> x in s && x !in seen
    ensures IsSubsequence(r, s)
    ensures InFirstAppearanceOrder(r, s)
    decreases |s|
  {
    if s == [] then []
    else if s[0] in seen then
      var r := UniqueExcept(s[1..], seen);
      assert forall x :: x in s <==> x == s[0] || x in s[1..];
      forall i, k | 0 <= i < |r| && 0 <= k < |s| && s[k] == r[i]
        ensures forall m :: 0 <= m < i ==> r[m] in s[..k]
      {
        assert r[i] in r;
        assert k != 0 && s[1..][k - 1] == r[i];
        assert s[..k] == [s[0]] + s[1..][..k - 1];
      }
      r
    else
      var u := UniqueExcept(s[1..], seen + {s[0]});
      var r := [s[0]] + u;
      assert r[1..] == u;
      assert forall x :: x in s <==> x == s[0] || x in s[1..];
      assert forall x :: x in r <==> x == s[0] || x in u;
      forall i, k | 0 <= i < |r| && 0 <= k < |s| && s[k] == r[i]
        ensures forall m :: 0 <= m < i ==> r[m] in s[..k]
      {
        if i > 0 {
          assert r[i] == u[i - 1] && u[i - 1] in u;
          assert k != 0 && s[1..][k - 1] == u[i - 1];
          assert s[..k] == [s[0]] + s[1..][..k - 1];
          forall m | 0 <= m < i ensures r[m] in s[..k] {
            if m > 0 {
              assert r[m] == u[m - 1];
            }
          }
        }
      }
      r
  }

  /** `Series.unique()`: each value once, in order of first appearance. */
  function Unique<T(==,!new)>(s: seq<T>): (r: seq<T>)
    ensures Distinct(r)
    ensures forall x :: x in r <==> x in s
    ensures IsSubsequence(r, s)
    ensures InFirstAppearanceOrder(r, s)
  {
    UniqueExcept(s, {})
  }

  /** The first-appearance order rules out any other order: `[1, 2, 1]` gives `[1, 2]`. */
  lemma UniqueKeepsFirstAppearance()
    ensures Unique([1, 2, 1]) == [1, 2]
  {
    var r := Unique([1, 2, 1]);
    assert 1 in r && 2 in r;
  }

  /** `le` orders its arguments totally (ties allowed) and transitively. */
  ghost predicate TotalPreorder<T(!new)>(le: (T, T) -> bool) {
    (forall a, b :: le(a, b) || le(b, a))
    && (forall a, b, c :: le(a, b) && le(b, c) ==> le(a, c))
  }

  predicate SortedBy<T>(s: seq<T>, le: (T, T) -> bool) {
    forall i, j :: 0 <= i < j < |s| ==> le(s[i], s[j])
  }

  /** Inserts `x` into the sorted `s` after every element it does not precede. */
  function Insert<T(==,!new)>(x: T, s: seq<T>, le: (T, T) -> bool): (r: seq<T>)
    requires TotalPreorder(le) && SortedBy(s, le)
    ensures SortedBy(r, le)
    ensures multiset(r) == multiset(s) + multiset{x}
    ensures forall y :: y in r <==> y == x || y in s
  {
    if s == [] || le(x, s[0]) then [x] + s
    else
      var r' := Insert(x, s[1..], le);
      assert s == [s[0]] + s[1..];
      assert le(s[0], x);
      assert forall k :: 1 <= k < |s| ==> le(s[0], s[k]);
      assert forall y :: y in r' ==> le(s[0], y);
      var r := [s[0]] + r';
      assert forall k :: 1 <= k < |r| ==> r[k] == r'[k - 1];
      r
  }

  /** `sorted(s)` / `sort_values`: the elements of `s` in ascending `le` order. */
  function SortBy<T(==,!new)>(s: seq<T>, le: (T, T) -> bool): (r: seq<T>)
    requires TotalPreorder(le)
    ensures SortedBy(r, le)
    ensures multiset(r) == multiset(s)
    ensures |r| == |s|
    ensures forall x :: x in r <==> x in s
  {
    if s == [] then []
    else
      assert s == [s[0]] + s[1..];
      var r := Insert(s[0], SortBy(s[1..], le), le);
      assert |r| == |multiset(r)|;
      r
  }

  function Max(xs: seq<int>): (m: int)
    requires xs != []
    ensures m in xs
    ensures forall x :: x in xs ==> x <= m
  {
    if |xs| == 1 then xs[0]
    else
      var m := Max(xs[1..]);
      assert xs == [xs[0]] + xs[1..];
      if xs[0] < m then m else xs[0]
  }

  function Min(xs: seq<int>): (m: int)
    requires xs != []
    ensures m in xs
    ensures forall x :: x in xs ==> m <= x
  {
    if |xs| == 1 then xs[0]
    else
      var m := Min(xs[1..]);
      assert xs == [xs[0]] + xs[1..];
      if m < xs[0] then m else xs[0]
  }

  function Sum(xs: seq<int>): int {
    if xs == [] then 0 else xs[0] + Sum(xs[1..])
  }

  /** A sum of values in `[lo, hi]` lies in `[lo * n, hi * n]`: the mean lies between the bounds. */
  lemma {:induction false} SumBetween(xs: seq<int>, lo: int, hi: int)
    requires forall x :: x in xs ==> lo <= x <= hi
    ensures lo * |xs| <= Sum(xs) <= hi * |xs|
  {
    if xs != [] {
      assert xs[0] in xs;
      assert forall x :: x in xs[1..] ==> x in xs;
      SumBetween(xs[1..], lo, hi);
      assert lo * |xs| == lo + lo * |xs[1..]|;
      assert hi * |xs| == hi + hi * |xs[1..]|;
    }
  }

  /** The mean of a non-empty sequence lies between its minimum and its maximum. */
  lemma MeanBetweenMinAndMax(xs: seq<int>)
    requires xs != []
    ensures Min(xs) * |xs| <= Sum(xs) <= Max(xs) * |xs|
    ensures Min(xs) <= Max(xs)
  {
    SumBetween(xs, Min(xs), Max(xs));
  }

  /** `value_counts()` over the given keys: each key with its number of occurrences in `xs`. */
  function Tally<T(==)>(keys: seq<T>, xs: seq<T>): (r: seq<(T, nat)>)
    ensures |r| == |keys|
    ensures forall i :: 0 <= i < |keys| ==> r[i] == (keys[i], multiset(xs)[keys[i]])
  {
    if keys == [] then [] else [(keys[0], multiset(xs)[keys[0]])] + Tally(keys[1..], xs)
  }

  /** Sum of the counts of a tally. */
  function TotalCount<T>(counts: seq<(T, nat)>): nat {
    if counts == [] then 0 else counts[0].1 + TotalCount(counts[1..])
  }

  lemma {:induction false} TallyEmpty<T>(keys: seq<T>)
    ensures TotalCount(Tally(keys, [])) == 0
  {
    if keys != [] {
      TallyEmpty(keys[1..]);
    }
  }

  lemma {:induction false} TallySnoc<T>(keys: seq<T>, xs: seq<T>, x: T)
    requires Distinct(keys)
    ensures TotalCount(Tally(keys, xs + [x])) == TotalCount(Tally(keys, xs)) + (if x in keys then 1 else 0)
  {
    if keys != [] {
      TallySnoc(keys[1..], xs, x);
      assert x in keys <==> x == keys[0] || x in keys[1..];
      assert x == keys[0] ==> x !in keys[1..];
    }
  }

  /** Tallying over distinct keys that cover every element counts each element exactly once. */
  lemma {:induction false} TallyCoversAll<T>(keys: seq<T>, xs: seq<T>)
    requires Distinct(keys)
    requires forall x :: x in xs ==> x in keys
    ensures TotalCount(Tally(keys, xs)) == |xs|
    decreases |xs|
  {
    if xs == [] {
      TallyEmpty(keys);
    } else {
      var init, last := xs[..|xs| - 1], xs[|xs| - 1];
      assert xs == init + [last];
      TallyCoversAll(keys, init);
      TallySnoc(keys, init, last);
    }
  }

  /** `Series.value_counts()`: every distinct value with how often it occurs. */
  function ValueCounts<T(==,!new)>(xs: seq<T>): (r: seq<(T, nat)>)
    ensures forall i, j :: 0 <= i < j < |r| ==> r[i].0 != r[j].0
    ensures forall x :: x in xs <==> exists i :: 0 <= i < |r| && r[i].0 == x
    ensures forall i :: 0 <= i < |r| ==> r[i].1 == multiset(xs)[r[i].0] && r[i].1 > 0
    ensures TotalCount(r) == |xs|
  {
    var keys := Unique(xs);
    TallyCoversAll(keys, xs);
    var r := Tally(keys, xs);
    forall i | 0 <= i < |r| ensures r[i].0 in xs && r[i].1 > 0 {
      assert r[i].0 == keys[i] && keys[i] in keys;
    }
    forall x | x in xs ensures exists i :: 0 <= i < |r| && r[i].0 == x {
      var i :| 0 <= i < |keys| && keys[i] == x;
      assert r[i].0 == x;
    }
    r
  }

  lemma {:induction false} DistinctCountAtMostOne<T>(s: seq<T>, x: T)
    requires Distinct(s)
    ensures multiset(s)[x] <= 1
  {
    if s != [] {
      assert s == [s[0]] + s[1..];
      DistinctCountAtMostOne(s[1..], x);
      assert s[0] !in s[1..];
    }
  }

  /** A permutation of a sequence without repetitions has none either. */
  lemma DistinctPermutation<T>(u: seq<T>, r: seq<T>)
    requires Distinct(u) && multiset(r) == multiset(u)
    ensures Distinct(r)
  {
    forall i, j | 0 <= i < j < |r| ensures r[i] != r[j] {
      if r[i] == r[j] {
        assert r == r[..i] + [r[i]] + r[i+1..j] + [r[j]] + r[j+1..];
        assert multiset(r)[r[i]] >= 2;
        DistinctCountAtMostOne(u, r[i]);
        assert false;
      }
    }
  }
}
