/** Filtering, sorting by a key and paging of finite lists, as the repositories use them. */
module Lists {

  function Filter<T>(s: seq<T>, p: T -> bool): seq<T> {
    if s == [] then [] else (if p(s[0]) then [s[0]] else []) + Filter(s[1..], p)
  }

  lemma {:induction false} FilterSnoc<T>(s: seq<T>, x: T, p: T -> bool)
    ensures Filter(s + [x], p) == Filter(s, p) + (if p(x) then [x] else [])
  {
    if s == [] {
      assert s + [x] == [x];
    } else {
      FilterSnoc(s[1..], x, p);
      assert (s + [x])[1..] == s[1..] + [x];
    }
  }

  lemma {:induction false} FilterCount<T>(s: seq<T>, p: T -> bool, x: T)
    ensures multiset(Filter(s, p))[x] == if p(x) then multiset(s)[x] else 0
  {
    if s != [] {
      FilterCount(s[1..], p, x);
      assert s == [s[0]] + s[1..];
    }
  }

  lemma FilterMember<T>(s: seq<T>, p: T -> bool, x: T)
    ensures x in Filter(s, p) <==> x in s && p(x)
  {
    FilterCount(s, p, x);
    assert x in multiset(Filter(s, p)) <==> x in Filter(s, p);
    assert x in multiset(s) <==> x in s;
  }

  lemma EqualCounts<T>(a: multiset<T>, b: multiset<T>)
    requires forall x :: x in a || x in b ==> a[x] == b[x]
    ensures a == b
  {
    assert a <= b && b <= a;
  }

  /** Filtering does not depend on the order beyond reordering the result. */
  lemma FilterSameElements<T>(a: seq<T>, b: seq<T>, p: T -> bool)
    requires multiset(a) == multiset(b)
    ensures multiset(Filter(a, p)) == multiset(Filter(b, p))
  {
    var fa, fb := multiset(Filter(a, p)), multiset(Filter(b, p));
    forall x | x in fa || x in fb
      ensures fa[x] == fb[x]
    {
      FilterCount(a, p, x);
      FilterCount(b, p, x);
    }
    EqualCounts(fa, fb);
  }

  /** A coarser filter applied first makes no difference. */
  lemma {:induction false} FilterTwice<T>(s: seq<T>, p: T -> bool, q: T -> bool)
    requires forall x :: p(x) ==> q(x)
    ensures Filter(Filter(s, q), p) == Filter(s, p)
  {
    if s != [] {
      FilterTwice(s[1..], p, q);
      if q(s[0]) {
        assert Filter(s, q) == [s[0]] + Filter(s[1..], q);
        assert Filter(s, q)[1..] == Filter(s[1..], q);
      } else {
        assert Filter(s, q) == Filter(s[1..], q);
      }
    }
  }

  ghost predicate Sorted<T>(s: seq<T>, key: T -> int) {
    forall i, j :: 0 <= i < j < |s| ==> key(s[i]) <= key(s[j])
  }

  ghost predicate DistinctKeys<T>(s: seq<T>, key: T -> int) {
    forall i, j :: 0 <= i < j < |s| ==> key(s[i]) != key(s[j])
  }

  ghost predicate DistinctElements<T>(s: seq<T>) {
    forall i, j :: 0 <= i < j < |s| ==> s[i] != s[j]
  }

  lemma {:induction false} FilterKeepsSorted<T>(s: seq<T>, p: T -> bool, key: T -> int)
    requires Sorted(s, key)
    ensures Sorted(Filter(s, p), key)
  {
    if s != [] {
      FilterKeepsSorted(s[1..], p, key);
      var rest := Filter(s[1..], p);
      forall j | 0 <= j < |rest|
        ensures key(s[0]) <= key(rest[j])
      {
        assert rest[j] in rest;
        FilterMember(s[1..], p, rest[j]);
        var k :| 0 <= k < |s[1..]| && s[1..][k] == rest[j];
        assert s[k + 1] == rest[j];
      }
    }
  }

  lemma SameElementsSameMembers<T>(a: seq<T>, b: seq<T>, x: T)
    requires multiset(a) == multiset(b)
    ensures x in a <==> x in b
  {
    assert x in a <==> x in multiset(a);
    assert x in b <==> x in multiset(b);
  }

  lemma HeadsAgree<T>(a: seq<T>, b: seq<T>, key: T -> int)
    requires multiset(a) == multiset(b) && a != [] && b != []
    requires Sorted(a, key) && Sorted(b, key) && DistinctKeys(a, key)
    ensures a[0] == b[0]
  {
    SameElementsSameMembers(a, b, a[0]);
    SameElementsSameMembers(a, b, b[0]);
    var i :| 0 <= i < |a| && a[i] == b[0];
    var j :| 0 <= j < |b| && b[j] == a[0];
    assert key(b[0]) <= key(b[j]);
  }

  lemma TailElements<T>(a: seq<T>, b: seq<T>)
    requires multiset(a) == multiset(b) && a != [] && b != [] && a[0] == b[0]
    ensures multiset(a[1..]) == multiset(b[1..])
  {
    assert a == [a[0]] + a[1..] && b == [b[0]] + b[1..];
    assert multiset(a[1..]) == multiset(a) - multiset{a[0]};
    assert multiset(b[1..]) == multiset(b) - multiset{b[0]};
  }

  /** A list with distinct keys has only one sorted order. */
  lemma {:induction false} SortedOrderIsUnique<T>(a: seq<T>, b: seq<T>, key: T -> int)
    requires multiset(a) == multiset(b)
    requires Sorted(a, key) && Sorted(b, key) && DistinctKeys(a, key)
    ensures a == b
  {
    assert |a| == |multiset(a)| == |multiset(b)| == |b|;
    if a != [] {
      HeadsAgree(a, b, key);
      TailElements(a, b);
      SortedOrderIsUnique(a[1..], b[1..], key);
      assert a == [a[0]] + a[1..] && b == [b[0]] + b[1..];
    }
  }

  /** Exchanging two elements with equal keys gives another sorted order of the same elements. */
  lemma SwapEqualKeys<T>(s: seq<T>, key: T -> int, i: nat, j: nat)
    requires Sorted(s, key) && i < j < |s| && key(s[i]) == key(s[j])
    ensures Sorted(s[i := s[j]][j := s[i]], key) && multiset(s[i := s[j]][j := s[i]]) == multiset(s)
  {
    var t := s[i := s[j]][j := s[i]];
    forall x, y | 0 <= x < y < |t|
      ensures key(t[x]) <= key(t[y])
    {
      assert key(t[x]) == key(s[x]) && key(t[y]) == key(s[y]);
    }
  }

  /** The order of a sorted listing of different elements is determined exactly when keys differ. */
  lemma SortedOrderIsUniqueIff<T(!new)>(s: seq<T>, key: T -> int)
    requires Sorted(s, key) && DistinctElements(s)
    ensures (forall t :: multiset(t) == multiset(s) && Sorted(t, key) ==> t == s) <==> DistinctKeys(s, key)
  {
    if DistinctKeys(s, key) {
      forall t | multiset(t) == multiset(s) && Sorted(t, key)
        ensures t == s
      {
        SortedOrderIsUnique(s, t, key);
      }
    } else {
      var i, j :| 0 <= i < j < |s| && key(s[i]) == key(s[j]);
      SwapEqualKeys(s, key, i, j);
      assert s[i := s[j]][j := s[i]][i] != s[i];
    }
  }

  /** `a` is a sorted order of the elements of s. */
  ghost predicate Reordered<T>(a: seq<T>, s: seq<T>, key: T -> int) {
    multiset(a) == multiset(s) && Sorted(a, key)
  }

  // ---------------------------------------------------------------- lists without repetition

  lemma OnceInDistinct<T>(s: seq<T>, i: nat)
    requires DistinctElements(s) && i < |s|
    ensures multiset(s)[s[i]] == 1
  {
    assert s == s[..i] + [s[i]] + s[i + 1..];
    assert s[i] !in s[..i] && s[i] !in s[i + 1..];
  }

  lemma TwiceWhenEqual<T>(s: seq<T>, i: nat, j: nat)
    requires i < j < |s| && s[i] == s[j]
    ensures multiset(s)[s[i]] >= 2
  {
    assert s == s[..i] + [s[i]] + s[i + 1..j] + [s[j]] + s[j + 1..];
  }

  lemma ReorderedDistinct<T>(a: seq<T>, b: seq<T>)
    requires multiset(a) == multiset(b) && DistinctElements(a)
    ensures DistinctElements(b)
  {
    forall i, j | 0 <= i < j < |b|
      ensures b[i] != b[j]
    {
      if b[i] == b[j] {
        SameElementsSameMembers(a, b, b[i]);
        var x :| 0 <= x < |a| && a[x] == b[i];
        OnceInDistinct(a, x);
        TwiceWhenEqual(b, i, j);
        assert false;
      }
    }
  }

  /** Lists of the same different elements are reorderings of each other. */
  lemma DistinctSameElements<T>(a: seq<T>, b: seq<T>)
    requires DistinctElements(a) && DistinctElements(b) && forall x :: x in a <==> x in b
    ensures multiset(a) == multiset(b)
  {
    var ma, mb := multiset(a), multiset(b);
    forall x | x in ma || x in mb
      ensures ma[x] == mb[x]
    {
      assert x in a && x in b;
      var i :| 0 <= i < |a| && a[i] == x;
      var j :| 0 <= j < |b| && b[j] == x;
      OnceInDistinct(a, i);
      OnceInDistinct(b, j);
    }
    EqualCounts(ma, mb);
  }

  lemma {:induction false} FilterKeepsDistinct<T>(s: seq<T>, p: T -> bool)
    requires DistinctElements(s)
    ensures DistinctElements(Filter(s, p))
  {
    if s != [] {
      FilterKeepsDistinct(s[1..], p);
      var rest := Filter(s[1..], p);
      forall j | 0 <= j < |rest|
        ensures s[0] != rest[j]
      {
        FilterMember(s[1..], p, rest[j]);
        var k :| 0 <= k < |s[1..]| && s[1..][k] == rest[j];
        assert s[k + 1] == rest[j];
      }
    }
  }

  // ---------------------------------------------------------------- paging

  function Min(a: int, b: int): int {
    if a < b then a else b
  }

  /** LIMIT count OFFSET start */
  function Slice<T>(s: seq<T>, start: nat, count: nat): seq<T> {
    if start >= |s| then [] else s[start..Min(start + count, |s|)]
  }

  /** Where page k ends and page k + 1 starts: k * perPage, counted up. */
  function Boundary(k: nat, perPage: nat): nat {
    if k == 0 then 0 else Boundary(k - 1, perPage) + perPage
  }

  lemma {:induction false} BoundaryIsProduct(k: nat, perPage: nat)
    ensures Boundary(k, perPage) == k * perPage
  {
    if k > 0 {
      BoundaryIsProduct(k - 1, perPage);
      assert k * perPage == (k - 1) * perPage + perPage;
    }
  }

  function Page<T>(s: seq<T>, page: nat, perPage: nat): seq<T>
    requires page >= 1
  {
    Slice(s, Boundary(page - 1, perPage), perPage)
  }

  /** Pages 1 to n, one after the other. */
  function Concat<T>(pages: nat -> seq<T>, n: nat): seq<T> {
    if n == 0 then [] else Concat(pages, n - 1) + pages(n)
  }

  /** Every page k is cut from one and the same list. */
  ghost predicate PagesOf<T>(pages: nat -> seq<T>, s: seq<T>, perPage: nat) {
    forall k :: k >= 1 ==> pages(k) == Page(s, k, perPage)
  }

  lemma NextSlice<T>(s: seq<T>, start: nat, count: nat)
    ensures s[..Min(start, |s|)] + Slice(s, start, count) == s[..Min(start + count, |s|)]
  {
  }

  /** They concatenate to a prefix of the list, and at last to all of it. */
  lemma {:induction false} PagesConcatenate<T>(pages: nat -> seq<T>, s: seq<T>, n: nat, perPage: nat)
    requires PagesOf(pages, s, perPage)
    ensures Concat(pages, n) == s[..Min(Boundary(n, perPage), |s|)]
    ensures Boundary(n, perPage) >= |s| ==> Concat(pages, n) == s
  {
    if n > 0 {
      PagesConcatenate(pages, s, n - 1, perPage);
      NextSlice(s, Boundary(n - 1, perPage), perPage);
    }
  }

  // ---------------------------------------------------------------- pages of different listings

  ghost predicate TieAt<T>(s: seq<T>, key: T -> int, b: int)
    requires 0 < b < |s|
  {
    key(s[b - 1]) == key(s[b])
  }

  ghost predicate TieAfterPage<T>(s: seq<T>, key: T -> int, perPage: nat, k: nat) {
    var b := Boundary(k, perPage);
    0 < b < |s| && TieAt(s, key, b)
  }

  /** A page boundary inside the list separates two elements of equal key. */
  ghost predicate TieAcrossPages<T>(s: seq<T>, key: T -> int, perPage: nat)
    requires perPage > 0
  {
    exists k :: TieAfterPage(s, key, perPage, k)
  }

  lemma {:induction false} FilterPrefix<T>(s: seq<T>, p: T -> bool, m: nat)
    requires m <= |s|
    requires forall i :: 0 <= i < m ==> p(s[i])
    requires forall i :: m <= i < |s| ==> !p(s[i])
    ensures Filter(s, p) == s[..m]
  {
    if s != [] {
      if m == 0 {
        FilterPrefix(s[1..], p, 0);
      } else {
        FilterPrefix(s[1..], p, m - 1);
        assert s[..m] == [s[0]] + s[1..][..m - 1];
      }
    }
  }

  /** Where a sorted list stops meeting `key <= c`. */
  lemma {:induction false} SortedSplit<T>(s: seq<T>, key: T -> int, c: int) returns (m: nat)
    requires Sorted(s, key)
    ensures m <= |s|
    ensures forall i :: 0 <= i < m ==> key(s[i]) <= c
    ensures forall i :: m <= i < |s| ==> key(s[i]) > c
  {
    if s == [] || key(s[0]) > c {
      m := 0;
    } else {
      var k := SortedSplit(s[1..], key, c);
      m := k + 1;
      assert forall i :: 1 <= i < |s| ==> s[i] == s[1..][i - 1];
    }
  }

  lemma InsertElements<T>(t: seq<T>, x: T, m: nat)
    requires m <= |t|
    ensures multiset(t[..m] + [x] + t[m..]) == multiset([x] + t)
  {
    assert t == t[..m] + t[m..];
  }

  lemma InsertSorted<T>(t: seq<T>, x: T, key: T -> int, m: nat, r: seq<T>)
    requires Sorted(t, key) && m <= |t| && r == t[..m] + [x] + t[m..]
    requires forall i :: 0 <= i < m ==> key(t[i]) <= key(x)
    requires forall i :: m <= i < |t| ==> key(t[i]) > key(x)
    ensures Sorted(r, key)
  {
    assert forall i :: 0 <= i < m ==> r[i] == t[i];
    assert r[m] == x;
    assert forall i :: m < i < |r| ==> r[i] == t[i - 1];
    forall i, j | 0 <= i < j < |r|
      ensures key(r[i]) <= key(r[j])
    {
    }
  }

  /** Every list has some sorted order. */
  lemma {:induction false} Arrange<T>(s: seq<T>, key: T -> int) returns (r: seq<T>)
    ensures Reordered(r, s, key)
  {
    if s == [] {
      r := [];
    } else {
      var t := Arrange(s[1..], key);
      var m := SortedSplit(t, key, key(s[0]));
      r := t[..m] + [s[0]] + t[m..];
      InsertElements(t, s[0], m);
      InsertSorted(t, s[0], key, m, r);
      assert s == [s[0]] + s[1..];
    }
  }

  /** Two sorted orders of the same elements have the same elements up to any place without a tie. */
  lemma PrefixesAgree<T>(a: seq<T>, b: seq<T>, key: T -> int, m: nat)
    requires multiset(a) == multiset(b) && Sorted(a, key) && Sorted(b, key)
    requires m <= |a| && (0 < m < |a| ==> key(a[m - 1]) != key(a[m]))
    ensures |a| == |b| && multiset(a[..m]) == multiset(b[..m])
  {
    assert |a| == |multiset(a)| == |multiset(b)| == |b|;
    if m == |a| {
      assert a[..m] == a && b[..m] == b;
    } else if m > 0 {
      var c := key(a[m - 1]);
      var p := (x: T) => key(x) <= c;
      FilterPrefix(a, p, m);
      var k := SortedSplit(b, key, c);
      FilterPrefix(b, p, k);
      FilterSameElements(a, b, p);
      assert |a[..m]| == |multiset(a[..m])| == |multiset(b[..k])| == |b[..k]|;
    }
  }

  /** Every page k is cut from some sorted order of the elements of s. */
  ghost predicate PagesOfSome<T(!new)>(pages: nat -> seq<T>, s: seq<T>, key: T -> int, perPage: nat) {
    forall k :: k >= 1 ==> PageOfSome(pages(k), s, key, k, perPage)
  }

  ghost predicate PageOfSome<T(!new)>(out: seq<T>, s: seq<T>, key: T -> int, page: nat, perPage: nat)
    requires page >= 1
  {
    exists a :: Reordered(a, s, key) && out == Page(a, page, perPage)
  }

  lemma SliceElements<T>(s: seq<T>, i: nat, j: nat)
    requires i <= j <= |s|
    ensures multiset(s[..j]) == multiset(s[..i]) + multiset(s[i..j])
  {
    assert s[..j] == s[..i] + s[i..j];
  }

  lemma CancelPrefix<T>(a: seq<T>, s: seq<T>, i: nat, j: nat)
    requires i <= j <= |a| && j <= |s|
    requires multiset(a[..i]) == multiset(s[..i]) && multiset(a[..j]) == multiset(s[..j])
    ensures multiset(a[i..j]) == multiset(s[i..j])
  {
    SliceElements(a, i, j);
    SliceElements(s, i, j);
    var whole, start := multiset(s[..j]), multiset(s[..i]);
    assert multiset(a[i..j]) == whole - start;
    assert multiset(s[i..j]) == whole - start;
  }

  lemma SliceSameElements<T>(a: seq<T>, s: seq<T>, key: T -> int, start: nat, count: nat)
    requires multiset(a) == multiset(s) && Sorted(a, key) && Sorted(s, key)
    requires 0 < start < |s| ==> !TieAt(s, key, start)
    requires 0 < start + count < |s| ==> !TieAt(s, key, start + count)
    ensures multiset(Slice(a, start, count)) == multiset(Slice(s, start, count))
  {
    PrefixesAgree(s, a, key, 0);
    if start < |s| {
      var end := Min(start + count, |s|);
      PrefixesAgree(s, a, key, start);
      PrefixesAgree(s, a, key, end);
      CancelPrefix(a, s, start, end);
    }
  }

  /** Without such a tie a page has the same elements whichever sorted order it was cut from. */
  lemma PageElements<T>(a: seq<T>, s: seq<T>, key: T -> int, page: nat, perPage: nat)
    requires multiset(a) == multiset(s) && Sorted(a, key) && Sorted(s, key)
    requires perPage > 0 && page >= 1 && !TieAcrossPages(s, key, perPage)
    ensures multiset(Page(a, page, perPage)) == multiset(Page(s, page, perPage))
  {
    assert !TieAfterPage(s, key, perPage, page - 1) && !TieAfterPage(s, key, perPage, page);
    SliceSameElements(a, s, key, Boundary(page - 1, perPage), perPage);
  }

  lemma SlicesInOrder<T>(s: seq<T>, key: T -> int, start: nat, count: nat, x: T, y: T)
    requires Sorted(s, key) && x in s[..Min(start, |s|)] && y in Slice(s, start, count)
    ensures key(x) <= key(y)
  {
    var i :| 0 <= i < |s[..Min(start, |s|)]| && s[..Min(start, |s|)][i] == x;
    var j :| 0 <= j < |Slice(s, start, count)| && Slice(s, start, count)[j] == y;
    assert s[i] == x && s[start + j] == y;
  }

  lemma SortedConcat<T>(a: seq<T>, b: seq<T>, key: T -> int)
    requires Sorted(a, key) && Sorted(b, key)
    requires forall x, y :: x in a && y in b ==> key(x) <= key(y)
    ensures Sorted(a + b, key)
  {
  }

  lemma SliceKeepsSorted<T>(s: seq<T>, key: T -> int, start: nat, count: nat)
    requires Sorted(s, key)
    ensures Sorted(Slice(s, start, count), key)
  {
  }

  lemma JoinElements<T>(a: seq<T>, b: seq<T>, x: seq<T>, y: seq<T>)
    requires multiset(a) == multiset(x) && multiset(b) == multiset(y)
    ensures multiset(a + b) == multiset(x + y)
  {
  }

  lemma SliceFollows<T>(a: seq<T>, p: seq<T>, s: seq<T>, key: T -> int, start: nat, count: nat)
    requires Sorted(s, key) && Reordered(a, s[..Min(start, |s|)], key) && Reordered(p, Slice(s, start, count), key)
    ensures Sorted(a + p, key)
  {
    forall x, y | x in a && y in p
      ensures key(x) <= key(y)
    {
      SameElementsSameMembers(a, s[..Min(start, |s|)], x);
      SameElementsSameMembers(p, Slice(s, start, count), y);
      SlicesInOrder(s, key, start, count, x, y);
    }
    SortedConcat(a, p, key);
  }

  lemma AddSlice<T>(a: seq<T>, p: seq<T>, s: seq<T>, key: T -> int, start: nat, count: nat)
    requires Sorted(s, key) && Reordered(a, s[..Min(start, |s|)], key) && Reordered(p, Slice(s, start, count), key)
    ensures Reordered(a + p, s[..Min(start + count, |s|)], key)
  {
    SliceFollows(a, p, s, key, start, count);
    JoinElements(a, p, s[..Min(start, |s|)], Slice(s, start, count));
    NextSlice(s, start, count);
  }

  lemma PageReordered<T(!new)>(p: seq<T>, s: seq<T>, key: T -> int, page: nat, perPage: nat)
    requires Sorted(s, key) && perPage > 0 && !TieAcrossPages(s, key, perPage)
    requires page >= 1 && PageOfSome(p, s, key, page, perPage)
    ensures Reordered(p, Page(s, page, perPage), key)
  {
    var b :| Reordered(b, s, key) && p == Page(b, page, perPage);
    PageElements(b, s, key, page, perPage);
    SliceKeepsSorted(b, key, Boundary(page - 1, perPage), perPage);
  }

  lemma AddPage<T(!new)>(a: seq<T>, p: seq<T>, s: seq<T>, key: T -> int, page: nat, perPage: nat)
    requires Sorted(s, key) && perPage > 0 && !TieAcrossPages(s, key, perPage)
    requires page >= 1 && PageOfSome(p, s, key, page, perPage)
    requires Reordered(a, s[..Min(Boundary(page - 1, perPage), |s|)], key)
    ensures Reordered(a + p, s[..Min(Boundary(page, perPage), |s|)], key)
  {
    PageReordered(p, s, key, page, perPage);
    AddSlice(a, p, s, key, Boundary(page - 1, perPage), perPage);
  }

  /** Pages cut from different sorted orders make, together, one sorted order of everything. */
  lemma {:induction false} PagesMakeAnOrder<T(!new)>(
    pages: nat -> seq<T>, s: seq<T>, key: T -> int, n: nat, perPage: nat)
    requires PagesOfSome(pages, s, key, perPage) && Sorted(s, key)
    requires perPage > 0 && !TieAcrossPages(s, key, perPage)
    ensures Reordered(Concat(pages, n), s[..Min(Boundary(n, perPage), |s|)], key)
  {
    if n > 0 {
      PagesMakeAnOrder(pages, s, key, n - 1, perPage);
      assert PageOfSome(pages(n), s, key, n, perPage);
      AddPage(Concat(pages, n - 1), pages(n), s, key, n, perPage);
    }
  }

  // ---------------------------------------------------------------- a tie across pages shows

  lemma {:induction false} InOnePage<T>(pages: nat -> seq<T>, i: nat, n: nat, x: T)
    requires 1 <= i <= n && x in pages(i)
    ensures multiset(Concat(pages, n))[x] >= 1
  {
    if i < n {
      InOnePage(pages, i, n - 1, x);
    } else {
      assert x in multiset(pages(n));
    }
  }

  lemma {:induction false} InTwoPages<T>(pages: nat -> seq<T>, i: nat, j: nat, n: nat, x: T)
    requires 1 <= i < j <= n && x in pages(i) && x in pages(j)
    ensures multiset(Concat(pages, n))[x] >= 2
  {
    if j < n {
      InTwoPages(pages, i, j, n - 1, x);
    } else {
      InOnePage(pages, i, n - 1, x);
      assert x in multiset(pages(n));
    }
  }

  lemma {:induction false} BoundaryGrows(i: nat, j: nat, perPage: nat)
    requires i <= j
    ensures Boundary(i, perPage) <= Boundary(j, perPage)
  {
    if i < j {
      BoundaryGrows(i, j - 1, perPage);
    }
  }

  /** Pages 1 to k of s, later pages of t. */
  function Spliced<T>(s: seq<T>, t: seq<T>, k: nat, perPage: nat): nat -> seq<T> {
    (j: nat) => if j == 0 then [] else Page(if j <= k then s else t, j, perPage)
  }

  lemma SplicedPages<T(!new)>(s: seq<T>, t: seq<T>, key: T -> int, k: nat, perPage: nat)
    requires Sorted(s, key) && Reordered(t, s, key)
    ensures PagesOfSome(Spliced(s, t, k, perPage), s, key, perPage)
  {
    var pages := Spliced(s, t, k, perPage);
    forall j: nat | j >= 1
      ensures PageOfSome(pages(j), s, key, j, perPage)
    {
      var a := if j <= k then s else t;
      assert Reordered(a, s, key) && pages(j) == Page(a, j, perPage);
    }
  }

  /** After exchanging the elements around boundary b, page k + 1 starts with what page k ended in. */
  lemma ShownTwice<T>(s: seq<T>, t: seq<T>, k: nat, perPage: nat)
    requires perPage > 0 && k >= 1 && Boundary(k, perPage) < |s| == |t|
        && t[Boundary(k, perPage)] == s[Boundary(k, perPage) - 1]
    ensures s[Boundary(k, perPage) - 1] in Page(s, k, perPage) && s[Boundary(k, perPage) - 1] in Page(t, k + 1, perPage)
  {
    assert Page(s, k, perPage)[perPage - 1] == s[Boundary(k, perPage) - 1];
    assert Page(t, k + 1, perPage)[0] == t[Boundary(k, perPage)];
  }

  lemma SplicedRepeats<T>(s: seq<T>, t: seq<T>, k: nat, n: nat, perPage: nat)
    requires perPage > 0 && k >= 1 && Boundary(k, perPage) < |s| == |t| <= Boundary(n, perPage)
    requires t[Boundary(k, perPage)] == s[Boundary(k, perPage) - 1]
    ensures multiset(Concat(Spliced(s, t, k, perPage), n))[s[Boundary(k, perPage) - 1]] >= 2
  {
    ShownTwice(s, t, k, perPage);
    if n <= k {
      BoundaryGrows(n, k, perPage);
      assert false;
    }
    InTwoPages(Spliced(s, t, k, perPage), k, k + 1, n, s[Boundary(k, perPage) - 1]);
  }

  lemma TieShows<T(!new)>(s: seq<T>, key: T -> int, n: nat, perPage: nat)
    requires Sorted(s, key) && DistinctElements(s)
    requires perPage > 0 && Boundary(n, perPage) >= |s| && TieAcrossPages(s, key, perPage)
    ensures exists pages :: PagesOfSome(pages, s, key, perPage) && !Reordered(Concat(pages, n), s, key)
  {
    var k: nat :| TieAfterPage(s, key, perPage, k);
    var b := Boundary(k, perPage);
    SwapEqualKeys(s, key, b - 1, b);
    var t := s[b - 1 := s[b]][b := s[b - 1]];
    SplicedPages(s, t, key, k, perPage);
    SplicedRepeats(s, t, k, n, perPage);
    OnceInDistinct(s, b - 1);
  }

  /**
    Pages fetched one by one, each from whatever sorted order its own request produced, show every
    element once and in order exactly when no page boundary falls between two equal keys.
    */
  lemma PagesMakeAnOrderIff<T(!new)>(s: seq<T>, key: T -> int, n: nat, perPage: nat)
    requires Sorted(s, key) && DistinctElements(s)
    requires perPage > 0 && Boundary(n, perPage) >= |s|
    ensures (forall pages :: PagesOfSome(pages, s, key, perPage) ==> Reordered(Concat(pages, n), s, key)) <==>
            !TieAcrossPages(s, key, perPage)
  {
    if TieAcrossPages(s, key, perPage) {
      TieShows(s, key, n, perPage);
    } else {
      forall pages | PagesOfSome(pages, s, key, perPage)
        ensures Reordered(Concat(pages, n), s, key)
      {
        PagesMakeAnOrder(pages, s, key, n, perPage);
        assert s[..Min(Boundary(n, perPage), |s|)] == s;
      }
    }
  }

  // ---------------------------------------------------------------- sorting

  ghost predicate SortedBy<T>(s: seq<T>, less: (T, T) -> bool) {
    forall i, j :: 0 <= i < j < |s| ==> !less(s[j], s[i])
  }

  /** What sort.Slice promises: some order without inversions, ties in any order. */
  ghost predicate Sorts<T(!new)>(sort: seq<T> -> seq<T>, less: (T, T) -> bool) {
    forall s :: multiset(sort(s)) == multiset(s) && SortedBy(sort(s), less)
  }
}
