/**
 * The list views both tables share: `Array.prototype.filter`,
 * `Array.prototype.slice`, the page-window arithmetic
 * (`indexOfLastRecord = currentPage * recordsPerPage`,
 * `indexOfFirstRecord = indexOfLastRecord - recordsPerPage`,
 * `totalPages = Math.ceil(length / recordsPerPage)`) and the enabled state of
 * the previous/next buttons.
 */
module ListView {
  import opened Common

  // ---------------------------------------------------------------------------
  // filter

  /** `s.filter(p)`: the elements satisfying `p`, in their original order. */
  function Filter<T(!new)>(s: seq<T>, p: T -> bool): (r: seq<T>)
    ensures |r| <= |s|
    ensures forall x :: x in r <==> x in s && p(x)
  {
    if s == [] then []
    else (if p(s[0]) then [s[0]] else []) + Filter(s[1..], p)
  }

  /** `a` is `b` with some elements deleted and the rest in the same order. */
  predicate IsSubsequence<T(==)>(a: seq<T>, b: seq<T>)
    decreases |b|
  {
    if a == [] then true
    else if b == [] then false
    else if a[0] == b[0] then IsSubsequence(a[1..], b[1..])
    else IsSubsequence(a, b[1..])
  }

  /** Filtering keeps the relative order of the kept elements. */
  lemma {:induction false} FilterIsSubsequence<T(!new)>(s: seq<T>, p: T -> bool)
    ensures IsSubsequence(Filter(s, p), s)
  {
    if s != [] {
      FilterIsSubsequence(s[1..], p);
      var rest := Filter(s[1..], p);
      if p(s[0]) {
        assert Filter(s, p) == [s[0]] + rest;
        assert ([s[0]] + rest)[1..] == rest;
      } else {
        assert Filter(s, p) == rest;
        if rest != [] {
          assert rest[0] in rest;
          assert rest[0] != s[0];
        }
      }
    }
  }

  /** Filtering distributes over concatenation. */
  lemma {:induction false} FilterConcat<T(!new)>(a: seq<T>, b: seq<T>, p: T -> bool)
    ensures Filter(a + b, p) == Filter(a, p) + Filter(b, p)
  {
    if a != [] {
      assert (a + b)[0] == a[0];
      assert (a + b)[1..] == a[1..] + b;
      FilterConcat(a[1..], b, p);
      var head := if p(a[0]) then [a[0]] else [];
      assert Filter(a + b, p) == head + (Filter(a[1..], p) + Filter(b, p));
      assert Filter(a, p) == head + Filter(a[1..], p);
    } else {
      assert a + b == b;
    }
  }

  /** A filter that every element passes returns the list unchanged. */
  lemma {:induction false} FilterKeepsAll<T(!new)>(s: seq<T>, p: T -> bool)
    requires forall x :: x in s ==> p(x)
    ensures Filter(s, p) == s
  {
    if s != [] {
      FilterKeepsAll(s[1..], p);
    }
  }

  /** Two predicates that agree on the list select the same elements. */
  lemma {:induction false} FilterAgreeing<T(!new)>(s: seq<T>, p: T -> bool, q: T -> bool)
    requires forall x :: x in s ==> p(x) == q(x)
    ensures Filter(s, p) == Filter(s, q)
  {
    if s != [] {
      FilterAgreeing(s[1..], p, q);
    }
  }

  /** Each element occurs in the filtered list as often as in the list, or not at all. */
  lemma {:induction false} FilterMultiplicity<T(!new)>(s: seq<T>, p: T -> bool, x: T)
    ensures multiset(Filter(s, p))[x] == if p(x) then multiset(s)[x] else 0
  {
    if s != [] {
      FilterMultiplicity(s[1..], p, x);
      assert s == [s[0]] + s[1..];
    }
  }

  /** Filtering two permutations of each other gives permutations of each other. */
  lemma FilterPermutation<T(!new)>(s: seq<T>, t: seq<T>, p: T -> bool)
    requires multiset(s) == multiset(t)
    ensures multiset(Filter(s, p)) == multiset(Filter(t, p))
  {
    forall x
      ensures multiset(Filter(s, p))[x] == multiset(Filter(t, p))[x]
    {
      FilterMultiplicity(s, p, x);
      FilterMultiplicity(t, p, x);
    }
  }

  // ---------------------------------------------------------------------------
  // slice and pages

  /** How `slice` resolves one index argument against a length `n`:
      negative indices count from the end, and both ends are clamped to [0, n]. */
  function SliceIndex(i: int, n: nat): (k: nat)
    ensures k <= n
    ensures 0 <= i ==> k == Min(i, n)
    ensures i < 0 ==> k == if n + i < 0 then 0 else n + i
  {
    if i < 0 then (if n + i < 0 then 0 else n + i)
    else if i > n then n
    else i
  }

  /** `s.slice(start, end)`: never longer than `s`; for non-negative indices in
      order, the elements from `start` up to `end`, cut at the list's end. */
  function Slice<T>(s: seq<T>, start: int, end: int): (r: seq<T>)
    ensures |r| <= |s|
    ensures 0 <= start <= end ==> r == s[Min(start, |s|)..Min(end, |s|)]
  {
    var b := SliceIndex(start, |s|);
    var e := SliceIndex(end, |s|);
    if b < e then s[b..e] else []
  }

  /** The records shown on page `page`: `s.slice(page * size - size, page * size)`.
      A page never holds more than `size` records, whatever the page number. */
  function Page<T>(s: seq<T>, page: int, size: nat): (r: seq<T>)
    ensures |r| <= size
  {
    var last := page * size;
    Slice(s, last - size, last)
  }

  /** `Math.ceil(n / size)`: no pages exactly for no records. */
  function TotalPages(n: nat, size: nat): (t: nat)
    requires size > 0
    ensures t == 0 <==> n == 0
  {
    var t := (n + size - 1) / size;
    assert n == 0 ==> n + size - 1 < size;
    assert n > 0 ==> n + size - 1 >= size;
    t
  }

  /** `TotalPages` is the least number of pages of `size` records that hold `n` records. */
  lemma TotalPagesIsCeiling(n: nat, size: nat)
    requires size > 0
    ensures n <= TotalPages(n, size) * size
    ensures n > 0 ==> (TotalPages(n, size) - 1) * size < n
    ensures TotalPages(n, size) == 0 <==> n == 0
  {
    var q := (n + size - 1) / size;
    var r := (n + size - 1) % size;
    assert n + size - 1 == q * size + r;
    assert (q - 1) * size == q * size - size;
    if n == 0 {
      assert q == 0;
    }
  }

  /** Multiplying by a non-negative factor keeps the order. */
  lemma MulMonotone(a: int, b: int, c: nat)
    requires a <= b
    ensures a * c <= b * c
  {
    assert b * c - a * c == (b - a) * c;
  }

  /** For pages numbered from 1, a page is the window [(page-1)*size, page*size)
      of the list, cut at its end. */
  lemma PageWindow<T>(s: seq<T>, page: int, size: nat)
    requires page >= 1
    ensures 0 <= (page - 1) * size <= page * size
    ensures Page(s, page, size) == s[Min((page - 1) * size, |s|)..Min(page * size, |s|)]
  {
    var lo, hi := (page - 1) * size, page * size;
    assert hi == lo + size;
    MulMonotone(0, page - 1, size);
  }

  /** Pages 1..k, one after the other. */
  function PagesUpTo<T>(s: seq<T>, size: nat, k: nat): seq<T>
  {
    if k == 0 then [] else PagesUpTo(s, size, k - 1) + Page(s, k, size)
  }

  /** Pages 1..k together are the first k*size records. */
  lemma {:induction false} PagesUpToPrefix<T>(s: seq<T>, size: nat, k: nat)
    ensures PagesUpTo(s, size, k) == s[..Min(k * size, |s|)]
  {
    if k > 0 {
      PagesUpToPrefix(s, size, k - 1);
      PageWindow(s, k, size);
      var a, b := Min((k - 1) * size, |s|), Min(k * size, |s|);
      PagesUpToStep(s, size, k, a, b);
    }
  }

  /** One step of the induction: if pages 1..k-1 are the prefix up to `a` and page k is
      the window [a, b), then pages 1..k are the prefix up to `b`. */
  lemma PagesUpToStep<T>(s: seq<T>, size: nat, k: nat, a: int, b: int)
    requires k > 0 && 0 <= a <= b <= |s|
    requires PagesUpTo(s, size, k - 1) == s[..a]
    requires Page(s, k, size) == s[a..b]
    ensures PagesUpTo(s, size, k) == s[..b]
  {
    assert s[..a] + s[a..b] == s[..b];
  }

  /** Pages 1..totalPages partition the list: concatenated, they give it back. */
  lemma PagesCoverList<T>(s: seq<T>, size: nat)
    requires size > 0
    ensures PagesUpTo(s, size, TotalPages(|s|, size)) == s
  {
    TotalPagesIsCeiling(|s|, size);
    PagesUpToPrefix(s, size, TotalPages(|s|, size));
  }

  /** Every page after the last one is empty. */
  lemma PageBeyondLast<T>(s: seq<T>, page: int, size: nat)
    requires size > 0
    requires page > TotalPages(|s|, size)
    ensures Page(s, page, size) == []
  {
    var t := TotalPages(|s|, size);
    TotalPagesIsCeiling(|s|, size);
    PageWindow(s, page, size);
    MulMonotone(t, page - 1, size);
  }

  /** Every page before the last one is full. */
  lemma PageBeforeLastIsFull<T>(s: seq<T>, page: int, size: nat)
    requires size > 0
    requires 1 <= page < TotalPages(|s|, size)
    ensures |Page(s, page, size)| == size
  {
    var t := TotalPages(|s|, size);
    TotalPagesIsCeiling(|s|, size);
    MulMonotone(1, page, size);
    MulMonotone(page, t - 1, size);
    var last := page * size;
    assert size <= last <= |s|;
    assert Page(s, page, size) == s[last - size..last];
  }

  // ---------------------------------------------------------------------------
  // previous / next buttons

  /** The pager is rendered only when `totalPages > 1`; "previous" is disabled
      on page 1. From a page in range, it is enabled exactly when the page is
      not the first. */
  function CanGoBack(page: int, totalPages: int): (b: bool)
    ensures b ==> totalPages > 1
    ensures totalPages > 1 && 1 <= page <= totalPages ==> (b <==> 1 < page)
  {
    totalPages > 1 && page != 1
  }

  /** "next" is disabled when `currentPage === totalPages`. From a page in
      range, it is enabled exactly when the page is not the last. */
  function CanGoForward(page: int, totalPages: int): (b: bool)
    ensures b ==> totalPages > 1
    ensures totalPages > 1 && 1 <= page <= totalPages ==> (b <==> page < totalPages)
  {
    totalPages > 1 && page != totalPages
  }

  /** From a page in [1, totalPages], an enabled button leads to a page in [1, totalPages]. */
  lemma ButtonsStayInRange(page: int, totalPages: int)
    requires 1 <= page <= totalPages
    ensures CanGoBack(page, totalPages) ==> 1 <= page - 1 <= totalPages
    ensures CanGoForward(page, totalPages) ==> 1 <= page + 1 <= totalPages
  {
  }

  /** The buttons test `===` rather than `<=`/`>=`: once the page lies past the
      last one (the list shrank under it), "next" stays enabled and moves further away. */
  lemma ForwardPastLastPage()
    ensures CanGoForward(3, 2)
    ensures Page([1, 2, 3, 4, 5, 6, 7, 8, 9, 10], 3, 5) == []
  {
  }
}
