/** `sort_unstable_by_key`, and why checking neighbours after sorting is checking all pairs. */
module Sorting {
  import opened Results

  ghost predicate SortedBy<T>(s: seq<T>, key: T -> int)
  {
    forall i, j :: 0 <= i < j < |s| ==> key(s[i]) <= key(s[j])
  }

  function InsertBy<T>(x: T, s: seq<T>, key: T -> int): (r: seq<T>)
  {
    if s == [] || key(x) <= key(s[0]) then [x] + s else [s[0]] + InsertBy(x, s[1..], key)
  }

  /** A sort by key. Elements with equal keys may come out in any order in the source, so nothing is
      proved that depends on the order chosen here. */
  function SortBy<T>(s: seq<T>, key: T -> int): (r: seq<T>)
  {
    if s == [] then [] else InsertBy(s[0], SortBy(s[1..], key), key)
  }

  lemma {:induction false} InsertByPermutes<T>(x: T, s: seq<T>, key: T -> int)
    ensures multiset(InsertBy(x, s, key)) == multiset(s) + multiset{x}
    ensures |InsertBy(x, s, key)| == |s| + 1
  {
    if s == [] || key(x) <= key(s[0]) {
      assert [x] + s == InsertBy(x, s, key);
    } else {
      InsertByPermutes(x, s[1..], key);
      assert s == [s[0]] + s[1..];
    }
  }

  lemma {:induction false} InsertBySorts<T>(x: T, s: seq<T>, key: T -> int)
    requires SortedBy(s, key)
    ensures SortedBy(InsertBy(x, s, key), key)
  {
    if s != [] && key(x) > key(s[0]) {
      InsertBySorts(x, s[1..], key);
      InsertByPermutes(x, s[1..], key);
      var rest := InsertBy(x, s[1..], key);
      forall j | 0 <= j < |rest|
        ensures key(s[0]) <= key(rest[j])
      {
        assert rest[j] in multiset(rest);
        assert rest[j] == x || rest[j] in s[1..];
      }
    }
  }

  lemma NothingSorted<T>(key: T -> int)
    ensures SortedBy([], key)
  {
  }

  /** The result is a permutation of the input, sorted by key. */
  lemma {:induction false} SortBySpec<T>(s: seq<T>, key: T -> int)
    ensures multiset(SortBy(s, key)) == multiset(s)
    ensures SortedBy(SortBy(s, key), key)
    ensures |SortBy(s, key)| == |s|
  {
    hide InsertBy, SortedBy;
    if s == [] {
      NothingSorted(key);
    } else {
      SortBySpec(s[1..], key);
      InsertByPermutes(s[0], SortBy(s[1..], key), key);
      InsertBySorts(s[0], SortBy(s[1..], key), key);
      assert s == [s[0]] + s[1..];
    }
  }

  lemma SortBySingle<T>(x: T, key: T -> int)
    ensures SortBy([x], key) == [x]
  {
    assert [x][1..] == [];
    assert SortBy([], key) == [];
  }

  lemma SortByMembers<T>(s: seq<T>, key: T -> int)
    ensures forall x :: x in SortBy(s, key) <==> x in s
  {
    SortBySpec(s, key);
    forall x
      ensures x in SortBy(s, key) <==> x in s
    {
      assert x in multiset(s) <==> x in multiset(SortBy(s, key));
    }
  }

  /** The key tells the elements of `s` apart (equal elements may repeat). */
  ghost predicate InjectiveOn<T>(s: seq<T>, key: T -> int)
  {
    forall x, y :: x in s && y in s && key(x) == key(y) ==> x == y
  }

  lemma MultisetMember<T>(a: seq<T>, b: seq<T>, x: T)
    requires multiset(a) == multiset(b)
    ensures x in a <==> x in b
  {
    assert x in multiset(a) <==> x in multiset(b);
  }

  lemma SmallestFirst<T>(a: seq<T>, b: seq<T>, key: T -> int)
    requires multiset(a) == multiset(b) && SortedBy(a, key) && SortedBy(b, key) && InjectiveOn(a, key)
    requires a != [] && b != []
    ensures a[0] == b[0]
  {
    MultisetMember(a, b, a[0]);
    MultisetMember(a, b, b[0]);
    var i :| 0 <= i < |b| && b[i] == a[0];
    var j :| 0 <= j < |a| && a[j] == b[0];
    HeadIsLeast(b, key, i);
    HeadIsLeast(a, key, j);
  }

  lemma HeadIsLeast<T>(a: seq<T>, key: T -> int, j: nat)
    requires SortedBy(a, key) && j < |a|
    ensures key(a[0]) <= key(a[j])
  {
  }

  lemma TailsPermute<T>(a: seq<T>, b: seq<T>)
    requires a != [] && b != [] && a[0] == b[0] && multiset(a) == multiset(b)
    ensures multiset(a[1..]) == multiset(b[1..])
  {
    assert a == [a[0]] + a[1..] && b == [b[0]] + b[1..];
    assert multiset(a[1..]) == multiset(a) - multiset{a[0]};
    assert multiset(b[1..]) == multiset(b) - multiset{b[0]};
  }

  lemma TailStaysSorted<T>(a: seq<T>, key: T -> int)
    requires a != [] && SortedBy(a, key)
    ensures SortedBy(a[1..], key)
    ensures InjectiveOn(a, key) ==> InjectiveOn(a[1..], key)
  {
  }

  /** When the key tells elements apart there is only one sorted permutation. */
  lemma {:induction false} SortedPermutationUnique<T>(a: seq<T>, b: seq<T>, key: T -> int)
    requires multiset(a) == multiset(b) && SortedBy(a, key) && SortedBy(b, key) && InjectiveOn(a, key)
    ensures a == b
  {
    hide SortedBy, InjectiveOn;
    assert |a| == |multiset(a)| == |multiset(b)| == |b|;
    if a != [] {
      SmallestFirst(a, b, key);
      TailsPermute(a, b);
      TailStaysSorted(a, key);
      TailStaysSorted(b, key);
      SortedPermutationUnique(a[1..], b[1..], key);
      assert a == [a[0]] + a[1..] && b == [b[0]] + b[1..];
    }
  }

  // ----- ranges -----

  /** A nonempty half-open range carried by each element. */
  ghost predicate NeighboursApart<T>(s: seq<T>, start: T -> int, end: T -> int)
  {
    forall k :: 0 <= k < |s| - 1 ==> end(s[k]) <= start(s[k + 1])
  }

  predicate Apart<T>(x: T, y: T, start: T -> int, end: T -> int)
  {
    end(x) <= start(y) || end(y) <= start(x)
  }

  /** Every two elements, at different positions, occupy disjoint ranges. */
  ghost predicate AllApart<T>(s: seq<T>, start: T -> int, end: T -> int)
  {
    forall i, j :: 0 <= i < j < |s| ==> Apart(s[i], s[j], start, end)
  }

  ghost predicate Nonempty<T>(s: seq<T>, start: T -> int, end: T -> int)
  {
    forall x :: x in s ==> start(x) < end(x)
  }

  lemma {:induction false} NeighboursReach<T>(s: seq<T>, start: T -> int, end: T -> int, i: nat, j: nat)
    requires NeighboursApart(s, start, end) && Nonempty(s, start, end) && i < j < |s|
    ensures end(s[i]) <= start(s[j])
    decreases j - i
  {
    if i + 1 < j {
      NeighboursReach(s, start, end, i, j - 1);
      assert s[j - 1] in s;
      assert end(s[j - 1]) <= start(s[j - 1 + 1]);
    } else {
      assert end(s[i]) <= start(s[i + 1]);
    }
  }

  /** After sorting nonempty ranges by start, adjacent pairs are apart exactly when all pairs are. */
  lemma NeighboursIffAll<T>(s: seq<T>, start: T -> int, end: T -> int)
    requires SortedBy(s, start) && Nonempty(s, start, end)
    ensures NeighboursApart(s, start, end) <==> AllApart(s, start, end)
  {
    if NeighboursApart(s, start, end) {
      forall i, j | 0 <= i < j < |s|
        ensures Apart(s[i], s[j], start, end)
      {
        NeighboursReach(s, start, end, i, j);
      }
    }
    if AllApart(s, start, end) {
      forall k | 0 <= k < |s| - 1
        ensures end(s[k]) <= start(s[k + 1])
      {
        assert Apart(s[k], s[k + 1], start, end);
        assert s[k] in s && s[k + 1] in s;
      }
    }
  }

  lemma {:induction false} ApartRemove<T>(s: seq<T>, k: nat, start: T -> int, end: T -> int)
    requires k < |s|
    ensures AllApart(s, start, end) <==>
              AllApart(s[..k] + s[k + 1..], start, end)
              && forall j :: 0 <= j < |s| && j != k ==> Apart(s[j], s[k], start, end)
  {
    var t := s[..k] + s[k + 1..];
    if AllApart(t, start, end) && forall j :: 0 <= j < |s| && j != k ==> Apart(s[j], s[k], start, end) {
      forall i, j | 0 <= i < j < |s|
        ensures Apart(s[i], s[j], start, end)
      {
        if i != k && j != k {
          var i', j' := if i < k then i else i - 1, if j < k then j else j - 1;
          assert t[i'] == s[i] && t[j'] == s[j];
          assert Apart(t[i'], t[j'], start, end);
        }
      }
    }
    if AllApart(s, start, end) {
      forall i, j | 0 <= i < j < |t|
        ensures Apart(t[i], t[j], start, end)
      {
        var i', j' := if i < k then i else i + 1, if j < k then j else j + 1;
        assert t[i] == s[i'] && t[j] == s[j'];
        assert Apart(s[i'], s[j'], start, end);
      }
      forall j | 0 <= j < |s| && j != k
        ensures Apart(s[j], s[k], start, end)
      {
        assert Apart(s[if j < k then j else k], s[if j < k then k else j], start, end);
      }
    }
  }

  lemma MultisetRemove<T>(s: seq<T>, k: nat)
    requires k < |s|
    ensures multiset(s[..k] + s[k + 1..]) == multiset(s) - multiset{s[k]}
  {
    assert s == s[..k] + [s[k]] + s[k + 1..];
  }

  lemma OthersAreTheRest<T>(s: seq<T>, k: nat, start: T -> int, end: T -> int)
    requires k < |s|
    ensures (forall j :: 0 <= j < |s| && j != k ==> Apart(s[j], s[k], start, end)) <==>
       (forall x :: x in s[..k] + s[k + 1..] ==> Apart(x, s[k], start, end))
  {
    var t := s[..k] + s[k + 1..];
    forall j | 0 <= j < |s| && j != k
      ensures s[j] in t
    {
      assert s[j] == t[if j < k then j else j - 1];
    }
    forall x | x in t
      ensures exists j :: 0 <= j < |s| && j != k && s[j] == x
    {
      var j :| 0 <= j < |t| && t[j] == x;
      assert s[if j < k then j else j + 1] == x;
    }
  }

  /** All-pairs disjointness does not depend on the order of the elements. */
  lemma {:induction false} ApartPermutes<T>(a: seq<T>, b: seq<T>, start: T -> int, end: T -> int)
    requires multiset(a) == multiset(b) && AllApart(a, start, end)
    ensures AllApart(b, start, end)
  {
    assert |a| == |multiset(a)| == |multiset(b)| == |b|;
    if a != [] {
      MultisetMember(a, b, a[0]);
      var k :| 0 <= k < |b| && b[k] == a[0];
      var a', b' := a[..0] + a[1..], b[..k] + b[k + 1..];
      ApartRemove(a, 0, start, end);
      OthersAreTheRest(a, 0, start, end);
      MultisetRemove(a, 0);
      MultisetRemove(b, k);
      assert |a'| < |a|;
      ApartPermutes(a', b', start, end);
      forall x | x in b'
        ensures Apart(x, b[k], start, end)
      {
        MultisetMember(a', b', x);
      }
      OthersAreTheRest(b, k, start, end);
      ApartRemove(b, k, start, end);
    }
  }

  // ----- sums -----

  function SumBy<T>(s: seq<T>, f: T -> int): int
  {
    if s == [] then 0 else SumBy(s[..|s| - 1], f) + f(s[|s| - 1])
  }

  lemma {:induction false} SumByConcat<T>(a: seq<T>, b: seq<T>, f: T -> int)
    ensures SumBy(a + b, f) == SumBy(a, f) + SumBy(b, f)
  {
    if b == [] {
      assert a + b == a;
    } else {
      assert (a + b)[..|a + b| - 1] == a + b[..|b| - 1];
      SumByConcat(a, b[..|b| - 1], f);
    }
  }

  lemma SumByRemove<T>(s: seq<T>, k: nat, f: T -> int)
    requires k < |s|
    ensures SumBy(s, f) == SumBy(s[..k] + s[k + 1..], f) + f(s[k])
  {
    hide SumBy;
    assert s == s[..k] + ([s[k]] + s[k + 1..]);
    SumByConcat(s[..k], [s[k]] + s[k + 1..], f);
    SumByConcat([s[k]], s[k + 1..], f);
    SumByConcat(s[..k], s[k + 1..], f);
    SumByOne(s[k], f);
  }

  lemma SumByOne<T>(x: T, f: T -> int)
    ensures SumBy([x], f) == f(x)
  {
    assert [x][..0] == [];
  }

  lemma PermutedRest<T>(a: seq<T>, b: seq<T>) returns (k: nat)
    requires multiset(a) == multiset(b) && a != []
    ensures k < |b| && b[k] == a[0] && multiset(a[1..]) == multiset(b[..k] + b[k + 1..])
  {
    MultisetMember(a, b, a[0]);
    k :| 0 <= k < |b| && b[k] == a[0];
    WithoutFirst(a);
    MultisetRemove(b, k);
  }

  lemma WithoutFirst<T>(a: seq<T>)
    requires a != []
    ensures multiset(a[1..]) == multiset(a) - multiset{a[0]}
  {
    assert a == [a[0]] + a[1..];
  }

  lemma {:induction false} SumByPermutes<T>(a: seq<T>, b: seq<T>, f: T -> int)
    requires multiset(a) == multiset(b)
    ensures SumBy(a, f) == SumBy(b, f)
  {
    hide SumBy;
    if a == [] {
      assert |b| == |multiset(b)| == 0;
    } else {
      var k := PermutedRest(a, b);
      SumByRemove(a, 0, f);
      SumByRemove(b, k, f);
      assert a[..0] + a[0 + 1..] == a[1..];
      SumByPermutes(a[1..], b[..k] + b[k + 1..], f);
    }
  }

  /** Sorted, apart ranges inside `[lo, hi)` cannot add up to more than its length. */
  lemma {:induction false} ApartSumFits<T>(s: seq<T>, start: T -> int, end: T -> int, length: T -> int, lo: int,
                                           hi: int)
    requires NeighboursApart(s, start, end) && Nonempty(s, start, end) && lo <= hi
    requires forall x :: x in s ==> lo <= start(x) && end(x) <= hi && length(x) == end(x) - start(x)
    ensures SumBy(s, length) <= hi - lo
  {
    if s != [] {
      var n := |s| - 1;
      var x := s[n];
      assert x in s;
      forall y | y in s[..n]
        ensures end(y) <= start(x)
      {
        var i :| 0 <= i < n && s[i] == y;
        NeighboursReach(s, start, end, i, n);
      }
      ApartSumFits(s[..n], start, end, length, lo, start(x));
    }
  }

  // ----- adjacent pairs -----

  /** `windows(2)`: the first of the first `n` adjacent pairs that clashes. */
  function FirstClash<T>(s: seq<T>, clash: (T, T) -> bool, n: nat): (r: Option<nat>)
    requires n == 0 || n < |s|
    ensures r.Some? ==> r.value < n && clash(s[r.value], s[r.value + 1])
    ensures r.None? ==> forall k :: 0 <= k < n ==> !clash(s[k], s[k + 1])
  {
    if n == 0 then
      None
    else
      var earlier := FirstClash(s, clash, n - 1);
      if earlier.Some? then earlier else if clash(s[n - 1], s[n]) then Some(n - 1) else None
  }

  function Pairs<T>(s: seq<T>): nat
  {
    if |s| == 0 then 0 else |s| - 1
  }

  lemma {:induction false} ClashPersists<T>(s: seq<T>, clash: (T, T) -> bool, n: nat, m: nat)
    requires n <= m && (m == 0 || m < |s|) && FirstClash(s, clash, n).Some?
    ensures FirstClash(s, clash, m) == FirstClash(s, clash, n)
  {
    if n < m {
      ClashPersists(s, clash, n, m - 1);
    }
  }

  /** The loop over adjacent pairs. */
  method FindClash<T>(s: seq<T>, clash: (T, T) -> bool) returns (r: Option<nat>)
    ensures r == FirstClash(s, clash, Pairs(s))
  {
    var k := 0;
    while k < |s| - 1
      invariant 0 <= k <= Pairs(s) && (k == 0 || k < |s|)
      invariant FirstClash(s, clash, k) == None
    {
      if clash(s[k], s[k + 1]) {
        assert FirstClash(s, clash, k + 1) == Some(k);
        ClashPersists(s, clash, k + 1, Pairs(s));
        return Some(k);
      }
      k := k + 1;
    }
    return None;
  }

  // ----- filtering -----

  function Filter<T>(s: seq<T>, p: T -> bool): (r: seq<T>)
  {
    if s == [] then [] else Filter(s[..|s| - 1], p) + if p(s[|s| - 1]) then [s[|s| - 1]] else []
  }

  lemma {:induction false} FilterMember<T>(s: seq<T>, p: T -> bool, x: T)
    ensures x in Filter(s, p) <==> x in s && p(x)
  {
    if s != [] {
      var front, last := s[..|s| - 1], s[|s| - 1];
      FilterMember(front, p, x);
      assert s == front + [last];
    }
  }

  lemma {:induction false} FilterConcat<T>(a: seq<T>, b: seq<T>, p: T -> bool)
    ensures Filter(a + b, p) == Filter(a, p) + Filter(b, p)
  {
    if b == [] {
      assert a + b == a;
    } else {
      assert (a + b)[..|a + b| - 1] == a + b[..|b| - 1];
      FilterConcat(a, b[..|b| - 1], p);
    }
  }

  lemma FilterRemove<T>(s: seq<T>, k: nat, p: T -> bool)
    requires k < |s|
    ensures multiset(Filter(s, p))
         == multiset(Filter(s[..k] + s[k + 1..], p)) + if p(s[k]) then multiset{s[k]} else multiset{}
  {
    hide Filter;
    assert s == s[..k] + ([s[k]] + s[k + 1..]);
    FilterConcat(s[..k], [s[k]] + s[k + 1..], p);
    FilterConcat([s[k]], s[k + 1..], p);
    FilterConcat(s[..k], s[k + 1..], p);
    FilterOne(s[k], p);
  }

  lemma FilterOne<T>(x: T, p: T -> bool)
    ensures Filter([x], p) == if p(x) then [x] else []
  {
    assert [x][..0] == [];
  }

  lemma {:induction false} FilterPermutes<T>(a: seq<T>, b: seq<T>, p: T -> bool)
    requires multiset(a) == multiset(b)
    ensures multiset(Filter(a, p)) == multiset(Filter(b, p))
  {
    hide Filter;
    if a == [] {
      assert |b| == |multiset(b)| == 0;
    } else {
      var k := PermutedRest(a, b);
      FilterRemove(a, 0, p);
      FilterRemove(b, k, p);
      assert a[..0] + a[0 + 1..] == a[1..];
      FilterPermutes(a[1..], b[..k] + b[k + 1..], p);
    }
  }

  /** All pairs of the chosen elements are apart, by position in the whole sequence. */
  ghost predicate ChosenApart<T>(s: seq<T>, p: T -> bool, start: T -> int, end: T -> int)
  {
    forall i, j :: 0 <= i < j < |s| && p(s[i]) && p(s[j]) ==> Apart(s[i], s[j], start, end)
  }

  lemma ChosenSplit<T>(front: seq<T>, last: T, p: T -> bool, start: T -> int, end: T -> int)
    ensures ChosenApart(front + [last], p, start, end) <==>
       ChosenApart(front, p, start, end)
            && (p(last) ==> forall x :: x in front && p(x) ==> Apart(x, last, start, end))
  {
    var s := front + [last];
    if ChosenApart(s, p, start, end) {
      forall i, j | 0 <= i < j < |front| && p(front[i]) && p(front[j])
        ensures Apart(front[i], front[j], start, end)
      {
        assert Apart(s[i], s[j], start, end);
      }
      forall x | x in front && p(x) && p(last)
        ensures Apart(x, last, start, end)
      {
        var i :| 0 <= i < |front| && front[i] == x;
        assert Apart(s[i], s[|front|], start, end);
      }
    }
  }

  lemma FilterQuantified<T>(s: seq<T>, p: T -> bool, last: T, start: T -> int, end: T -> int)
    ensures (forall x :: x in Filter(s, p) ==> Apart(x, last, start, end)) <==>
       (forall x :: x in s && p(x) ==> Apart(x, last, start, end))
  {
    forall x
      ensures x in Filter(s, p) <==> x in s && p(x)
    {
      FilterMember(s, p, x);
    }
  }

  lemma {:induction false} FilterApart<T>(s: seq<T>, p: T -> bool, start: T -> int, end: T -> int)
    ensures AllApart(Filter(s, p), start, end) <==> ChosenApart(s, p, start, end)
  {
    if s != [] {
      hide AllApart, ChosenApart, Apart;
      var front, last := s[..|s| - 1], s[|s| - 1];
      assert s == front + [last];
      FilterApart(front, p, start, end);
      ChosenSplit(front, last, p, start, end);
      FilterQuantified(front, p, last, start, end);
      LastApart(Filter(front, p), last, start, end);
      FilterLast(front, last, p);
    }
  }

  lemma FilterLast<T>(front: seq<T>, last: T, p: T -> bool)
    ensures Filter(front + [last], p) == if p(last) then Filter(front, p) + [last] else Filter(front, p)
  {
    assert (front + [last])[..|front|] == front;
  }

  lemma LastApart<T>(f: seq<T>, last: T, start: T -> int, end: T -> int)
    ensures AllApart(f + [last], start, end) <==>
       AllApart(f, start, end) && forall x :: x in f ==> Apart(x, last, start, end)
  {
    var g := f + [last];
    if AllApart(g, start, end) {
      forall i, j | 0 <= i < j < |f|
        ensures Apart(f[i], f[j], start, end)
      {
        assert Apart(g[i], g[j], start, end);
      }
      forall x | x in f
        ensures Apart(x, last, start, end)
      {
        var i :| 0 <= i < |f| && f[i] == x;
        assert Apart(g[i], g[|f|], start, end);
      }
    }
  }

  lemma {:induction false} SumByFilter<T>(s: seq<T>, p: T -> bool, f: T -> int, g: T -> int)
    requires forall x :: x in s ==> g(x) == if p(x) then f(x) else 0
    ensures SumBy(s, g) == SumBy(Filter(s, p), f)
  {
    if s != [] {
      var front, last := s[..|s| - 1], s[|s| - 1];
      assert last in s;
      SumByFilter(front, p, f, g);
      if p(last) {
        assert Filter(s, p)[..|Filter(s, p)| - 1] == Filter(front, p);
      } else {
        assert Filter(s, p) == Filter(front, p);
      }
    }
  }
}
