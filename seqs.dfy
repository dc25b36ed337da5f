/** Sequence facts that stand in for the numpy primitives the halo code is
    built from: `np.where(a == v)`, `np.unique`, a stable `np.argsort`,
    `np.searchsorted`, `ndarray.sort` and numpy's reading of an integer
    index. */
module Seqs {
  import opened Wrappers

  predicate StrictlyIncreasing(s: seq<int>) {
    forall i, j :: 0 <= i < j < |s| ==> s[i] < s[j]
  }

  predicate NonDecreasing(s: seq<int>) {
    forall i, j :: 0 <= i < j < |s| ==> s[i] <= s[j]
  }

  predicate Distinct<T(==)>(s: seq<T>) {
    forall i, j :: 0 <= i < j < |s| ==> s[i] != s[j]
  }

  function Sum(s: seq<int>): int {
    if |s| == 0 then 0 else Sum(s[..|s| - 1]) + s[|s| - 1]
  }

  /** The elements of `a` at the positions listed in `p` (`a[p]` in numpy). */
  function Gather(a: seq<int>, p: seq<int>): (r: seq<int>)
    requires forall i :: 0 <= i < |p| ==> 0 <= p[i] < |a|
    ensures |r| == |p| && forall i :: 0 <= i < |p| ==> r[i] == a[p[i]]
  {
    seq(|p|, i requires 0 <= i < |p| => a[p[i]])
  }

  /** numpy's reading of an integer index into an axis of length `n`:
      negative indices count from the end, anything else out of range is
      an IndexError (None here). */
  function NormIndex(i: int, n: nat): (r: Option<nat>)
    ensures r.Some? <==> -(n as int) <= i < n
    ensures r.Some? ==> r.value < n && (r.value == i || r.value == i + n)
  {
    if 0 <= i < n then Some(i) else if -(n as int) <= i < 0 then Some(i + n) else None
  }

  // ---------------------------------------------------------------------
  // np.where(a == v)[0]

  /** The positions at which `a` holds `v`, in ascending order. */
  function Positions(a: seq<int>, v: int): (r: seq<int>)
    ensures forall k :: 0 <= k < |r| ==> 0 <= r[k] < |a| && a[r[k]] == v
    ensures forall i :: 0 <= i < |a| && a[i] == v ==> i in r
    ensures StrictlyIncreasing(r)
  {
    if |a| == 0 then []
    else
      var init := Positions(a[..|a| - 1], v);
      assert forall k :: 0 <= k < |init| ==> init[k] < |a| - 1;
      init + (if a[|a| - 1] == v then [|a| - 1] else [])
  }

  /** A value that does not occur has no positions. */
  lemma PositionsAbsent(a: seq<int>, v: int)
    requires v !in a
    ensures Positions(a, v) == []
  {
  }

  // ---------------------------------------------------------------------
  // np.unique

  function Insert(s: seq<int>, x: int): (r: seq<int>)
    requires StrictlyIncreasing(s)
    ensures StrictlyIncreasing(r)
    ensures forall y :: y in r <==> y in s || y == x
  {
    if |s| == 0 then [x]
    else if x < s[0] then [x] + s
    else if x == s[0] then s
    else
      var tail := Insert(s[1..], x);
      assert forall k :: 0 <= k < |tail| ==> tail[k] in s[1..] || tail[k] == x;
      assert forall k :: 0 <= k < |s[1..]| ==> s[0] < s[1..][k];
      [s[0]] + tail
  }

  /** The distinct values of `a` in strictly ascending order. */
  function Unique(a: seq<int>): (u: seq<int>)
    ensures StrictlyIncreasing(u)
    ensures forall y :: y in u <==> y in a
  {
    if |a| == 0 then [] else Insert(Unique(a[..|a| - 1]), a[|a| - 1])
  }

  // ---------------------------------------------------------------------
  // np.argsort(a, kind='mergesort')

  /** The positions of each value of `us` in turn, each group ascending. */
  function Grouped(a: seq<int>, us: seq<int>): (r: seq<int>)
  {
    if |us| == 0 then [] else Positions(a, us[0]) + Grouped(a, us[1..])
  }

  /** A stable argsort: positions ordered by value, ties by position. */
  function StableArgsort(a: seq<int>): seq<int> {
    Grouped(a, Unique(a))
  }

  /** Position `x` sorts before position `y` under the key `keys`, ties
      being broken by the position itself (what sort stability means). */
  predicate KeyLess(keys: seq<int>, x: int, y: int)
    requires 0 <= x < |keys| && 0 <= y < |keys|
  {
    keys[x] < keys[y] || (keys[x] == keys[y] && x < y)
  }

  predicate SortedByKey(keys: seq<int>, p: seq<int>) {
    && (forall i :: 0 <= i < |p| ==> 0 <= p[i] < |keys|)
    && (forall i, j :: 0 <= i < j < |p| ==> KeyLess(keys, p[i], p[j]))
  }

  /** `p` is a permutation of the positions of `keys`, listed by ascending
      key and, among equal keys, by ascending position. */
  predicate IsStableArgsort(keys: seq<int>, p: seq<int>) {
    && |p| == |keys|
    && SortedByKey(keys, p)
    && (forall x :: 0 <= x < |keys| ==> x in p)
  }

  /** `p` is a permutation of the positions of `keys` in non-decreasing
      key order: what `np.argsort(keys)` returns whatever its `kind`, the
      order among equal keys being left open. */
  predicate IsArgsort(keys: seq<int>, p: seq<int>) {
    && |p| == |keys|
    && (forall i :: 0 <= i < |p| ==> 0 <= p[i] < |keys|)
    && (forall i, j :: 0 <= i < j < |p| ==> keys[p[i]] <= keys[p[j]])
    && (forall x :: 0 <= x < |keys| ==> x in p)
  }

  /** `argsort` behaves as `np.argsort` on every input. */
  ghost predicate Argsorts(argsort: seq<int> -> seq<int>) {
    forall a :: IsArgsort(a, argsort(a))
  }

  lemma {:induction false} GroupedSplit(a: seq<int>, xs: seq<int>, ys: seq<int>)
    ensures Grouped(a, xs + ys) == Grouped(a, xs) + Grouped(a, ys)
  {
    if |xs| > 0 {
      assert (xs + ys)[0] == xs[0];
      assert (xs + ys)[1..] == xs[1..] + ys;
      GroupedSplit(a, xs[1..], ys);
      var head := Positions(a, xs[0]);
      var mid := Grouped(a, xs[1..]);
      var tail := Grouped(a, ys);
      assert Grouped(a, xs + ys) == head + (mid + tail);
      assert head + (mid + tail) == (head + mid) + tail;
    } else {
      assert xs + ys == ys;
    }
  }

  lemma {:induction false} GroupedMembers(a: seq<int>, us: seq<int>)
    ensures forall k :: 0 <= k < |Grouped(a, us)| ==>
              0 <= Grouped(a, us)[k] < |a| && a[Grouped(a, us)[k]] in us
    ensures forall i :: 0 <= i < |a| && a[i] in us ==> i in Grouped(a, us)
  {
    if |us| > 0 {
      GroupedMembers(a, us[1..]);
      var p, rest := Positions(a, us[0]), Grouped(a, us[1..]);
      assert Grouped(a, us) == p + rest;
      forall k | 0 <= k < |p + rest|
        ensures 0 <= (p + rest)[k] < |a| && a[(p + rest)[k]] in us
      {
        if k >= |p| {
          assert (p + rest)[k] == rest[k - |p|];
          assert a[rest[k - |p|]] in us[1..];
        }
      }
      forall i | 0 <= i < |a| && a[i] in us
        ensures i in p + rest
      {
        if a[i] != us[0] {
          assert a[i] in us[1..];
        }
      }
    }
  }

  /** When every grouped value lies in [lo, hi), so does the value at every
      grouped position. */
  lemma {:induction false} GroupedValuesIn(a: seq<int>, us: seq<int>, lo: int, hi: int)
    requires forall m :: 0 <= m < |us| ==> lo <= us[m] < hi
    ensures forall i :: 0 <= i < |Grouped(a, us)| ==>
      0 <= Grouped(a, us)[i] < |a| && lo <= a[Grouped(a, us)[i]] < hi
  {
    if |us| > 0 {
      var p, rest := Positions(a, us[0]), Grouped(a, us[1..]);
      GroupedValuesIn(a, us[1..], lo, hi);
      forall i | |p| <= i < |p + rest|
        ensures 0 <= (p + rest)[i] < |a| && lo <= a[(p + rest)[i]] < hi
      {
        assert (p + rest)[i] == rest[i - |p|];
      }
    }
  }

  lemma {:induction false} GroupedSorted(a: seq<int>, us: seq<int>)
    requires StrictlyIncreasing(us)
    ensures SortedByKey(a, Grouped(a, us))
  {
    GroupedMembers(a, us);
    if |us| > 0 {
      GroupedSorted(a, us[1..]);
      GroupedMembers(a, us[1..]);
      var p, rest := Positions(a, us[0]), Grouped(a, us[1..]);
      var r := p + rest;
      assert Grouped(a, us) == r;
      forall i, j | 0 <= i < j < |r|
        ensures KeyLess(a, r[i], r[j])
      {
        if j < |p| {
          assert r[i] == p[i] && r[j] == p[j];
        } else if i < |p| {
          assert r[i] == p[i] && r[j] == rest[j - |p|];
          var v := a[rest[j - |p|]];
          assert v in us[1..];
          var m :| 0 <= m < |us[1..]| && us[1..][m] == v;
          assert us[0] < us[m + 1];
        } else {
          assert r[i] == rest[i - |p|] && r[j] == rest[j - |p|];
        }
      }
    }
  }

  lemma {:induction false} DistinctCard(s: seq<int>)
    requires forall i, j :: 0 <= i < j < |s| ==> s[i] != s[j]
    ensures |set x | x in s| == |s|
  {
    if |s| > 0 {
      var init := s[..|s| - 1];
      DistinctCard(init);
      assert (set x | x in s) == (set x | x in init) + {s[|s| - 1]};
      assert s[|s| - 1] !in (set x | x in init);
    }
  }

  lemma SliceMiddle(x: seq<int>, y: seq<int>, z: seq<int>)
    ensures (x + (y + z))[|x|..|x| + |y|] == y
  {
    assert (x + (y + z))[|x|..] == y + z;
  }

  /** A sequence has at least as many entries as distinct values, and
      strictly more when some value repeats. */
  lemma {:induction false} SetCardDuplicate(s: seq<int>)
    ensures |set x | x in s| <= |s|
    ensures !Distinct(s) ==> |set x | x in s| < |s|
  {
    if |s| > 0 {
      var init := s[..|s| - 1];
      var last := s[|s| - 1];
      SetCardDuplicate(init);
      assert s == init + [last];
      assert (set x | x in s) == (set x | x in init) + {last};
      if !Distinct(s) {
        var i, j :| 0 <= i < j < |s| && s[i] == s[j];
        if j < |s| - 1 {
          assert init[i] == init[j];
        } else {
          assert init[i] == last;
          assert (set x | x in s) == (set x | x in init);
        }
      }
    }
  }

  /** `len(np.unique(u)) == len(u)` holds exactly when `u` has no repeats. */
  lemma UniqueLengthIffDistinct(u: seq<int>)
    ensures |Unique(u)| == |u| <==> Distinct(u)
  {
    var q := Unique(u);
    DistinctCard(q);
    assert (set x | x in q) == (set x | x in u);
    SetCardDuplicate(u);
    if Distinct(u) {
      DistinctCard(u);
    }
  }

  /** The positions 0, 1, ..., n-1 in order. */
  function Iota(n: nat): (r: seq<int>)
    ensures |r| == n && forall i :: 0 <= i < n ==> r[i] == i
  {
    seq(n, i => i)
  }

  /** A sequence of distinct in-range positions that mentions every
      position of a length-`n` axis has exactly `n` entries. */
  lemma PermutationLength(p: seq<int>, n: nat)
    requires forall i, j :: 0 <= i < j < |p| ==> p[i] != p[j]
    requires forall i :: 0 <= i < |p| ==> 0 <= p[i] < n
    requires forall x :: 0 <= x < n ==> x in p
    ensures |p| == n
  {
    var r := Iota(n);
    DistinctCard(p);
    DistinctCard(r);
    forall x ensures x in p <==> x in r {
      if x in r {
        var i :| 0 <= i < n && r[i] == x;
      }
      if x in p {
        var i :| 0 <= i < |p| && p[i] == x;
        assert r[x] == x;
      }
    }
    assert (set x | x in p) == (set x | x in r);
  }

  /** Every entry of the stable argsort is a position of `a`. */
  lemma StableArgsortInRange(a: seq<int>)
    ensures forall i :: 0 <= i < |StableArgsort(a)| ==> 0 <= StableArgsort(a)[i] < |a|
  {
    GroupedMembers(a, Unique(a));
  }

  /** The stable argsort is a permutation ordered by (key, position). */
  lemma StableArgsortCorrect(a: seq<int>)
    ensures IsStableArgsort(a, StableArgsort(a))
  {
    var p := StableArgsort(a);
    GroupedSorted(a, Unique(a));
    GroupedMembers(a, Unique(a));
    forall x | 0 <= x < |a| ensures x in p {
      assert a[x] in Unique(a);
    }
    forall i, j | 0 <= i < j < |p| ensures p[i] != p[j] {
      assert KeyLess(a, p[i], p[j]);
    }
    PermutationLength(p, |a|);
  }

  /** The stable argsort is one of the orders `np.argsort` may give. */
  lemma StableArgsortArgsorts()
    ensures Argsorts(StableArgsort)
  {
    forall a ensures IsArgsort(a, StableArgsort(a)) {
      StableArgsortCorrect(a);
      var p := StableArgsort(a);
      forall i, j | 0 <= i < j < |p| ensures a[p[i]] <= a[p[j]] {
        assert KeyLess(a, p[i], p[j]);
      }
    }
  }

  /** Ordering by (key, position) pins the permutation down: any
      permutation sorted that way is the stable argsort. */
  lemma SortedHeadIsLeast(keys: seq<int>, p: seq<int>, x: int)
    requires SortedByKey(keys, p)
    requires x in p
    ensures x == p[0] || KeyLess(keys, p[0], x)
  {
    var i :| 0 <= i < |p| && p[i] == x;
  }

  lemma SortedDistinct(keys: seq<int>, p: seq<int>)
    requires SortedByKey(keys, p)
    ensures forall i, j :: 0 <= i < j < |p| ==> p[i] != p[j]
  {
    forall i, j | 0 <= i < j < |p| ensures p[i] != p[j] {
      assert KeyLess(keys, p[i], p[j]);
    }
  }

  lemma SameMembersSameLength(p: seq<int>, q: seq<int>)
    requires forall i, j :: 0 <= i < j < |p| ==> p[i] != p[j]
    requires forall i, j :: 0 <= i < j < |q| ==> q[i] != q[j]
    requires forall x :: x in p <==> x in q
    ensures |p| == |q|
  {
    DistinctCard(p);
    DistinctCard(q);
    assert (set x | x in p) == (set x | x in q);
  }

  /** Removing a common least element leaves the same members. */
  lemma TailMembers(keys: seq<int>, p: seq<int>, q: seq<int>, x: int)
    requires SortedByKey(keys, p) && SortedByKey(keys, q)
    requires forall y :: y in p <==> y in q
    requires |p| > 0 && |q| > 0 && p[0] == q[0]
    requires x in p[1..]
    ensures x in q[1..]
  {
    var i :| 1 <= i < |p| && p[i] == x;
    assert KeyLess(keys, p[0], p[i]);
    assert x in q;
    var j :| 0 <= j < |q| && q[j] == x;
    assert q[j] in q[1..];
  }

  lemma {:induction false} SortedByKeyUnique(keys: seq<int>, p: seq<int>, q: seq<int>)
    requires SortedByKey(keys, p) && SortedByKey(keys, q)
    requires forall x :: x in p <==> x in q
    ensures p == q
  {
    SortedDistinct(keys, p);
    SortedDistinct(keys, q);
    SameMembersSameLength(p, q);
    if |p| > 0 {
      SortedHeadIsLeast(keys, p, q[0]);
      SortedHeadIsLeast(keys, q, p[0]);
      assert p[0] == q[0];
      forall x ensures x in p[1..] <==> x in q[1..] {
        if x in p[1..] {
          TailMembers(keys, p, q, x);
        }
        if x in q[1..] {
          TailMembers(keys, q, p, x);
        }
      }
      SortedByKeyUnique(keys, p[1..], q[1..]);
      assert p == [p[0]] + p[1..];
      assert q == [q[0]] + q[1..];
    }
  }

  lemma StableArgsortUnique(a: seq<int>, p: seq<int>)
    requires IsStableArgsort(a, p)
    ensures p == StableArgsort(a)
  {
    StableArgsortCorrect(a);
    var q := StableArgsort(a);
    forall x ensures x in p <==> x in q {
      if x in p {
        var i :| 0 <= i < |p| && p[i] == x;
      }
      if x in q {
        var i :| 0 <= i < |q| && q[i] == x;
      }
    }
    SortedByKeyUnique(a, p, q);
  }

  // ---------------------------------------------------------------------
  // np.searchsorted(s, x) (side='left')

  /** numpy's left binary search over `s[lo..hi]`. */
  function SearchSortedFrom(s: seq<int>, x: int, lo: nat, hi: nat): (r: nat)
    requires lo <= hi <= |s|
    ensures lo <= r <= hi
    decreases hi - lo
  {
    if lo >= hi then lo
    else
      var mid := lo + (hi - lo) / 2;
      if s[mid] < x then SearchSortedFrom(s, x, mid + 1, hi)
      else SearchSortedFrom(s, x, lo, mid)
  }

  function SearchSorted(s: seq<int>, x: int): (r: nat)
    ensures r <= |s|
  {
    SearchSortedFrom(s, x, 0, |s|)
  }

  /** Where every element before `b` is below `x` and none from `b` on is,
      the binary search finds exactly `b`. */
  lemma {:induction false} SearchSortedFromPartition(s: seq<int>, x: int, lo: nat, hi: nat, b: nat)
    requires lo <= b <= hi <= |s|
    requires forall i :: 0 <= i < b ==> s[i] < x
    requires forall i :: b <= i < |s| ==> s[i] >= x
    ensures SearchSortedFrom(s, x, lo, hi) == b
    decreases hi - lo
  {
    if lo < hi {
      var mid := lo + (hi - lo) / 2;
      if s[mid] < x {
        SearchSortedFromPartition(s, x, mid + 1, hi, b);
      } else {
        SearchSortedFromPartition(s, x, lo, mid, b);
      }
    }
  }

  lemma SearchSortedPartition(s: seq<int>, x: int, b: nat)
    requires b <= |s|
    requires forall i :: 0 <= i < b ==> s[i] < x
    requires forall i :: b <= i < |s| ==> s[i] >= x
    ensures SearchSorted(s, x) == b
  {
    SearchSortedFromPartition(s, x, 0, |s|, b);
  }

  // ---------------------------------------------------------------------
  // ndarray.sort() on integers

  function InsertSorted(s: seq<int>, x: int): (r: seq<int>)
    ensures |r| == |s| + 1
    ensures multiset(r) == multiset(s) + multiset{x}
  {
    if |s| == 0 then [x]
    else if x <= s[0] then [x] + s
    else
      assert s == [s[0]] + s[1..];
      [s[0]] + InsertSorted(s[1..], x)
  }

  lemma {:induction false} InsertSortedSorted(s: seq<int>, x: int)
    requires NonDecreasing(s)
    ensures NonDecreasing(InsertSorted(s, x))
  {
    if |s| > 0 && x > s[0] {
      var tail := InsertSorted(s[1..], x);
      InsertSortedSorted(s[1..], x);
      forall k | 0 <= k < |tail| ensures s[0] <= tail[k] {
        assert tail[k] in multiset(tail);
        if tail[k] != x {
          assert tail[k] in multiset(s[1..]);
          assert tail[k] in s[1..];
        }
      }
      assert InsertSorted(s, x) == [s[0]] + tail;
    }
  }

  /** The ascending rearrangement of `s`. */
  function Sort(s: seq<int>): (r: seq<int>)
  {
    if |s| == 0 then [] else InsertSorted(Sort(s[..|s| - 1]), s[|s| - 1])
  }

  lemma {:induction false} SortCorrect(s: seq<int>)
    ensures NonDecreasing(Sort(s))
    ensures multiset(Sort(s)) == multiset(s)
    ensures |Sort(s)| == |s|
  {
    if |s| > 0 {
      var init, x := s[..|s| - 1], s[|s| - 1];
      SortCorrect(init);
      InsertSortedSorted(Sort(init), x);
      assert s == init + [x];
      assert multiset(s) == multiset(init) + multiset{x};
    }
  }
}
