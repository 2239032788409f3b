/**
 * Orders and order-preserving sequence operations used by the pipeline:
 * code-point string comparison (Python `<` on `str`, JavaScript on strings),
 * list filtering, and the stable sort behind Python's `sorted`/`list.sort`
 * (with or without `reverse=True`) and ECMAScript's `Array.prototype.sort`.
 */
module Ordering {
  import opened Seqs

  // ---------------------------------------------------------------------------
  // Lexicographic string order

  /** `a < b` on strings: code point by code point, a proper prefix first. */
  predicate StrLt(a: string, b: string)
    decreases |a|
  {
    if a == [] then b != []
    else if b == [] then false
    else if a[0] != b[0] then a[0] < b[0]
    else StrLt(a[1..], b[1..])
  }

  predicate StrLe(a: string, b: string) { a == b || StrLt(a, b) }

  lemma {:induction false} StrLtIrreflexive(a: string)
    ensures !StrLt(a, a)
  {
    if a != [] { StrLtIrreflexive(a[1..]); }
  }

  lemma {:induction false} StrLtTransitive(a: string, b: string, c: string)
    requires StrLt(a, b) && StrLt(b, c)
    ensures StrLt(a, c)
    decreases |a|
  {
    if a != [] && b != [] && c != [] && a[0] == b[0] && b[0] == c[0] {
      StrLtTransitive(a[1..], b[1..], c[1..]);
    }
  }

  lemma {:induction false} StrLtTotal(a: string, b: string)
    ensures a == b || StrLt(a, b) || StrLt(b, a)
    decreases |a|
  {
    if a != [] && b != [] && a[0] == b[0] {
      StrLtTotal(a[1..], b[1..]);
      if a[1..] == b[1..] {
        assert a == [a[0]] + a[1..] && b == [b[0]] + b[1..];
      }
    }
  }

  lemma StrLeTotalOrder()
    ensures forall a, b :: StrLe(a, b) || StrLe(b, a)
    ensures forall a, b, c :: StrLe(a, b) && StrLe(b, c) ==> StrLe(a, c)
    ensures forall a, b :: StrLe(a, b) && StrLe(b, a) ==> a == b
  {
    forall a, b ensures StrLe(a, b) || StrLe(b, a) { StrLtTotal(a, b); }
    forall a, b, c | StrLe(a, b) && StrLe(b, c) ensures StrLe(a, c) {
      if StrLt(a, b) && StrLt(b, c) { StrLtTransitive(a, b, c); }
    }
    forall a, b | StrLe(a, b) && StrLe(b, a) ensures a == b {
      if a != b { StrLtTransitive(a, b, a); StrLtIrreflexive(a); }
    }
  }

  // ---------------------------------------------------------------------------
  // Filtering (list comprehensions with a condition, `Array.prototype.filter`)

  function Filter<T>(s: seq<T>, p: T -> bool): (r: seq<T>)
    ensures |r| <= |s|
    ensures forall i | 0 <= i < |r| :: p(r[i])
  {
    if s == [] then []
    else
      assert s == [s[0]] + s[1..];
      (if p(s[0]) then [s[0]] else []) + Filter(s[1..], p)
  }

  lemma {:induction false} FilterAppend<T>(a: seq<T>, b: seq<T>, p: T -> bool)
    ensures Filter(a + b, p) == Filter(a, p) + Filter(b, p)
  {
    if a != [] {
      var h := if p(a[0]) then [a[0]] else [];
      assert (a + b)[0] == a[0] && (a + b)[1..] == a[1..] + b;
      assert Filter(a + b, p) == h + Filter(a[1..] + b, p);
      FilterAppend(a[1..], b, p);
      assert Filter(a, p) == h + Filter(a[1..], p);
      assert h + (Filter(a[1..], p) + Filter(b, p)) == (h + Filter(a[1..], p)) + Filter(b, p);
    } else {
      assert a + b == b;
    }
  }

  /** Filtering with a condition every element meets keeps everything, in order. */
  lemma {:induction false} FilterAll<T>(s: seq<T>, p: T -> bool)
    requires forall i | 0 <= i < |s| :: p(s[i])
    ensures Filter(s, p) == s
  {
    if s != [] { FilterAll(s[1..], p); }
  }

  lemma FilterCons<T>(x: T, t: seq<T>, p: T -> bool)
    ensures Filter([x] + t, p) == (if p(x) then [x] else []) + Filter(t, p)
  {
    assert ([x] + t)[0] == x && ([x] + t)[1..] == t;
  }

  lemma FilterSnoc<T>(s: seq<T>, x: T, p: T -> bool)
    ensures Filter(s + [x], p) == Filter(s, p) + (if p(x) then [x] else [])
  {
    FilterAppend(s, [x], p);
    FilterCons(x, [], p);
    assert [x] + [] == [x];
  }

  /** Filtering only drops elements. */
  lemma {:induction false} FilterIn<T>(s: seq<T>, p: T -> bool, y: T)
    requires y in Filter(s, p)
    ensures y in s
  {
    if s != [] && y != s[0] {
      FilterCons(s[0], s[1..], p);
      assert s == [s[0]] + s[1..];
      FilterIn(s[1..], p, y);
    }
  }

  /** Filtering keeps every element that meets the condition. */
  lemma {:induction false} FilterKeeps<T>(s: seq<T>, p: T -> bool, y: T)
    requires y in s && p(y)
    ensures y in Filter(s, p)
  {
    FilterCons(s[0], s[1..], p);
    assert s == [s[0]] + s[1..];
    if y != s[0] {
      FilterKeeps(s[1..], p, y);
    }
  }

  /** Filtering keeps a sorted sequence sorted. */
  lemma {:induction false} FilterSorted<T>(s: seq<T>, le: (T, T) -> bool, p: T -> bool)
    requires Sorted(s, le)
    ensures Sorted(Filter(s, p), le)
  {
    if s != [] {
      var x, t := s[0], s[1..];
      assert s == [x] + t;
      assert Sorted(t, le) by {
        forall i, j | 0 <= i < j < |t| ensures le(t[i], t[j]) {
          assert t[i] == s[i + 1] && t[j] == s[j + 1];
        }
      }
      FilterSorted(t, le, p);
      FilterCons(x, t, p);
      var ft := Filter(t, p);
      forall y | y in ft ensures le(x, y) {
        FilterIn(t, p, y);
        var k :| 0 <= k < |t| && t[k] == y;
        assert s[k + 1] == y;
      }
      if p(x) {
        var r := [x] + ft;
        forall i, j | 0 <= i < j < |r| ensures le(r[i], r[j]) {
          assert r[j] == ft[j - 1] && r[j] in ft;
          if i > 0 {
            assert r[i] == ft[i - 1];
          }
        }
      }
    }
  }

  /** Splitting by a condition and its negation loses and adds nothing. */
  lemma {:induction false} FilterPartition<T>(s: seq<T>, p: T -> bool, q: T -> bool)
    requires forall x :: q(x) == !p(x)
    ensures multiset(Filter(s, p)) + multiset(Filter(s, q)) == multiset(s)
  {
    if s != [] {
      var x, t := s[0], s[1..];
      assert s == [x] + t;
      FilterPartition(t, p, q);
      FilterCons(x, t, p);
      FilterCons(x, t, q);
      var fp, fq := (if p(x) then [x] else []), (if q(x) then [x] else []);
      var mt, mp, mq := multiset(t), multiset(Filter(t, p)), multiset(Filter(t, q));
      assert multiset(Filter(s, p)) == multiset(fp) + mp;
      assert multiset(Filter(s, q)) == multiset(fq) + mq;
      assert multiset(fp) + multiset(fq) == multiset{x};
      assert multiset(s) == multiset{x} + mt;
    }
  }

  /** Two conditions that agree everywhere filter alike. */
  lemma {:induction false} FilterCongruent<T>(s: seq<T>, p: T -> bool, q: T -> bool)
    requires forall x :: p(x) == q(x)
    ensures Filter(s, p) == Filter(s, q)
  {
    if s != [] {
      FilterCongruent(s[1..], p, q);
    }
  }

  /** Filtering twice is filtering once with both conditions. */
  lemma {:induction false} FilterFilter<T>(s: seq<T>, p: T -> bool, q: T -> bool, both: T -> bool)
    requires forall x :: both(x) == (p(x) && q(x))
    ensures Filter(Filter(s, p), q) == Filter(s, both)
  {
    if s != [] {
      var x, t := s[0], s[1..];
      assert s == [x] + t;
      FilterFilter(t, p, q, both);
      FilterCons(x, t, p);
      FilterCons(x, t, both);
      if p(x) {
        assert Filter(s, p) == [x] + Filter(t, p);
        FilterCons(x, Filter(t, p), q);
      } else {
        assert Filter(s, p) == Filter(t, p);
      }
    }
  }

  /** How many elements of `s` satisfy `p`. */
  function Count<T>(s: seq<T>, p: T -> bool): (n: nat)
    ensures n <= |s|
  {
    if s == [] then 0 else (if p(s[0]) then 1 else 0) + Count(s[1..], p)
  }

  lemma {:induction false} CountAppend<T>(a: seq<T>, b: seq<T>, p: T -> bool)
    ensures Count(a + b, p) == Count(a, p) + Count(b, p)
  {
    if a != [] {
      assert (a + b)[0] == a[0] && (a + b)[1..] == a[1..] + b;
      CountAppend(a[1..], b, p);
    } else {
      assert a + b == b;
    }
  }

  /** Counting up to the last element, then the last element. */
  lemma CountSnoc<T>(s: seq<T>, p: T -> bool)
    requires s != []
    ensures Count(s, p) == Count(s[..|s| - 1], p) + if p(s[|s| - 1]) then 1 else 0
  {
    var init, last := s[..|s| - 1], s[|s| - 1];
    assert s == init + [last];
    CountAppend(init, [last], p);
    assert Count([last], p) == (if p(last) then 1 else 0);
  }

  /** Counting around one position: the element there, plus the rest without it. */
  lemma {:induction false} CountWithout<T>(b: seq<T>, k: nat, p: T -> bool)
    requires k < |b|
    ensures Count(b, p) == (if p(b[k]) then 1 else 0) + Count(b[..k] + b[k + 1..], p)
    decreases k
  {
    if k == 0 {
      assert b[..0] + b[1..] == b[1..];
    } else {
      var t := b[1..];
      CountWithout(t, k - 1, p);
      assert t[..k - 1] == b[1..k] && t[k - 1] == b[k] && t[k..] == b[k + 1..];
      var rest := b[..k] + b[k + 1..];
      assert rest[0] == b[0] && rest[1..] == b[1..k] + b[k + 1..];
    }
  }

  /** Taking the same element out of two permutations of each other leaves permutations. */
  lemma MultisetWithout<T>(a: seq<T>, b: seq<T>, k: nat)
    requires a != [] && k < |b| && b[k] == a[0] && multiset(a) == multiset(b)
    ensures multiset(a[1..]) == multiset(b[..k] + b[k + 1..])
  {
    var x, rest := a[0], b[..k] + b[k + 1..];
    assert b == b[..k] + ([x] + b[k + 1..]);
    assert multiset(b) == multiset(b[..k]) + multiset{x} + multiset(b[k + 1..]);
    assert multiset(a) == multiset{x} + multiset(a[1..]) by {
      assert a == [x] + a[1..];
    }
    assert multiset(rest) == multiset(b[..k]) + multiset(b[k + 1..]);
    forall y ensures multiset(a[1..])[y] == multiset(rest)[y] {
      assert multiset(a)[y] == multiset(b)[y];
    }
  }

  /** Reordering does not change how many elements satisfy a condition. */
  lemma {:induction false} CountPermutation<T>(a: seq<T>, b: seq<T>, p: T -> bool)
    requires multiset(a) == multiset(b)
    ensures Count(a, p) == Count(b, p)
    decreases |a|
  {
    if a != [] {
      assert a[0] in multiset(b);
      var k :| 0 <= k < |b| && b[k] == a[0];
      MultisetWithout(a, b, k);
      CountPermutation(a[1..], b[..k] + b[k + 1..], p);
      CountWithout(b, k, p);
    } else {
      assert |b| == |multiset(b)|;
    }
  }

  /** What holds of every element of `b` holds of every element of a permutation of `b`. */
  lemma MultisetAll<T>(a: seq<T>, b: seq<T>, p: T -> bool)
    requires multiset(a) == multiset(b) && forall i | 0 <= i < |b| :: p(b[i])
    ensures forall i | 0 <= i < |a| :: p(a[i])
  {
    forall i | 0 <= i < |a| ensures p(a[i]) {
      assert a[i] in multiset(b);
      var k :| 0 <= k < |b| && b[k] == a[i];
    }
  }

  // ---------------------------------------------------------------------------
  // Stable insertion sort

  /** `le` is a total preorder: any two values compare, and comparison chains. */
  ghost predicate TotalPreorder<T(!new)>(le: (T, T) -> bool) {
    && (forall a, b :: le(a, b) || le(b, a))
    && (forall a, b, c :: le(a, b) && le(b, c) ==> le(a, c))
  }

  predicate Sorted<T>(s: seq<T>, le: (T, T) -> bool) {
    forall i, j | 0 <= i < j < |s| :: le(s[i], s[j])
  }

  /** `x` goes after every element that is not strictly greater than it. */
  function Insert<T>(x: T, r: seq<T>, le: (T, T) -> bool): (q: seq<T>)
    ensures |q| == |r| + 1
    ensures multiset(q) == multiset(r) + multiset{x}
  {
    if r == [] then [x]
    else if !le(r[0], x) then [x] + r
    else
      assert r == [r[0]] + r[1..];
      [r[0]] + Insert(x, r[1..], le)
  }

  /** The elements of `s` inserted one by one, first to last. */
  function SortBy<T>(s: seq<T>, le: (T, T) -> bool): (r: seq<T>)
    ensures multiset(r) == multiset(s) && |r| == |s|
  {
    if s == [] then []
    else
      assert s == s[..|s| - 1] + [s[|s| - 1]];
      Insert(s[|s| - 1], SortBy(s[..|s| - 1], le), le)
  }

  lemma {:induction false} InsertSorted<T(!new)>(x: T, r: seq<T>, le: (T, T) -> bool)
    requires TotalPreorder(le) && Sorted(r, le)
    ensures Sorted(Insert(x, r, le), le)
  {
    if r != [] && le(r[0], x) {
      InsertSorted(x, r[1..], le);
      var q := Insert(x, r, le);
      assert q[1..] == Insert(x, r[1..], le);
      forall j | 1 <= j < |q| ensures le(q[0], q[j]) {
        assert q[j] in multiset(Insert(x, r[1..], le));
        assert q[j] == x || q[j] in r[1..];
      }
    }
  }

  /** The result of `SortBy` is ordered by `le`. */
  lemma {:induction false} SortBySorted<T(!new)>(s: seq<T>, le: (T, T) -> bool)
    requires TotalPreorder(le)
    ensures Sorted(SortBy(s, le), le)
  {
    if s != [] {
      SortBySorted(s[..|s| - 1], le);
      InsertSorted(s[|s| - 1], SortBy(s[..|s| - 1], le), le);
    }
  }

  /** Values `le` cannot tell apart. */
  predicate Tied<T>(le: (T, T) -> bool, a: T, b: T) { le(a, b) && le(b, a) }

  /** The elements of `s` tied with `e`, in their order in `s`. */
  function TiedWith<T>(s: seq<T>, le: (T, T) -> bool, e: T): seq<T> {
    if s == [] then []
    else (if Tied(le, s[0], e) then [s[0]] else []) + TiedWith(s[1..], le, e)
  }

  lemma {:induction false} TiedWithAppend<T>(a: seq<T>, b: seq<T>, le: (T, T) -> bool, e: T)
    ensures TiedWith(a + b, le, e) == TiedWith(a, le, e) + TiedWith(b, le, e)
  {
    if a != [] {
      assert (a + b)[0] == a[0] && (a + b)[1..] == a[1..] + b;
      TiedWithAppend(a[1..], b, le, e);
    } else {
      assert a + b == b;
    }
  }

  lemma {:induction false} TiedWithNone<T>(s: seq<T>, le: (T, T) -> bool, e: T)
    requires forall i | 0 <= i < |s| :: !Tied(le, s[i], e)
    ensures TiedWith(s, le, e) == []
  {
    if s != [] { TiedWithNone(s[1..], le, e); }
  }

  lemma TiedWithCons<T>(y: T, s: seq<T>, le: (T, T) -> bool, e: T)
    ensures TiedWith([y] + s, le, e) == (if Tied(le, y, e) then [y] else []) + TiedWith(s, le, e)
  {
    assert ([y] + s)[0] == y && ([y] + s)[1..] == s;
  }

  lemma SortedTail<T>(r: seq<T>, le: (T, T) -> bool)
    requires r != [] && Sorted(r, le)
    ensures Sorted(r[1..], le)
  {
    forall i, j | 0 <= i < j < |r| - 1 ensures le(r[1..][i], r[1..][j]) {
      assert r[1..][i] == r[i + 1] && r[1..][j] == r[j + 1];
    }
  }

  /** Nothing in a sorted sequence that starts above `x` is tied with a value tied with `x`. */
  lemma NoneTiedAfter<T(!new)>(x: T, r: seq<T>, le: (T, T) -> bool, e: T)
    requires TotalPreorder(le) && Sorted(r, le) && r != [] && !le(r[0], x) && Tied(le, x, e)
    ensures TiedWith(r, le, e) == []
  {
    forall i | 0 <= i < |r| ensures !Tied(le, r[i], e) {
      if i > 0 { assert le(r[0], r[i]); }
    }
    TiedWithNone(r, le, e);
  }

  lemma InsertTiedBefore<T>(x: T, r: seq<T>, le: (T, T) -> bool, e: T)
    requires r == [] || !le(r[0], x)
    requires Tied(le, x, e) ==> TiedWith(r, le, e) == []
    ensures TiedWith(Insert(x, r, le), le, e) == TiedWith(r, le, e) + (if Tied(le, x, e) then [x] else [])
  {
    assert Insert(x, r, le) == [x] + r;
    TiedWithCons(x, r, le, e);
  }

  lemma InsertTiedAfter<T>(x: T, r: seq<T>, le: (T, T) -> bool, e: T)
    requires r != [] && le(r[0], x)
    requires TiedWith(Insert(x, r[1..], le), le, e) == TiedWith(r[1..], le, e) + (if Tied(le, x, e) then [x] else [])
    ensures TiedWith(Insert(x, r, le), le, e) == TiedWith(r, le, e) + (if Tied(le, x, e) then [x] else [])
  {
    var t := r[1..];
    var h := if Tied(le, r[0], e) then [r[0]] else [];
    assert Insert(x, r, le) == [r[0]] + Insert(x, t, le);
    TiedWithCons(r[0], Insert(x, t, le), le, e);
    assert TiedWith(r, le, e) == h + TiedWith(t, le, e);
    AppendAssoc(h, TiedWith(t, le, e), if Tied(le, x, e) then [x] else []);
  }

  lemma {:induction false} InsertTied<T(!new)>(x: T, r: seq<T>, le: (T, T) -> bool, e: T)
    requires TotalPreorder(le) && Sorted(r, le)
    ensures TiedWith(Insert(x, r, le), le, e)
         == TiedWith(r, le, e) + (if Tied(le, x, e) then [x] else [])
  {
    if r == [] || !le(r[0], x) {
      if r != [] && Tied(le, x, e) {
        NoneTiedAfter(x, r, le, e);
      }
      InsertTiedBefore(x, r, le, e);
    } else {
      SortedTail(r, le);
      InsertTied(x, r[1..], le, e);
      InsertTiedAfter(x, r, le, e);
    }
  }

  /**
   * The sort is stable: the elements of any class of tied values keep their
   * relative order from the input.
   */
  lemma {:induction false} SortByStable<T(!new)>(s: seq<T>, le: (T, T) -> bool, e: T)
    requires TotalPreorder(le)
    ensures TiedWith(SortBy(s, le), le, e) == TiedWith(s, le, e)
  {
    if s != [] {
      var init, x := s[..|s| - 1], s[|s| - 1];
      var tail := if Tied(le, x, e) then [x] else [];
      assert TiedWith([x], le, e) == tail by {
        assert [x][1..] == [];
      }
      calc {
        TiedWith(SortBy(s, le), le, e);
        TiedWith(Insert(x, SortBy(init, le), le), le, e);
        { SortBySorted(init, le); InsertTied(x, SortBy(init, le), le, e); }
        TiedWith(SortBy(init, le), le, e) + tail;
        { SortByStable(init, le, e); }
        TiedWith(init, le, e) + tail;
        { TiedWithAppend(init, [x], le, e); assert s == init + [x]; }
        TiedWith(s, le, e);
      }
    }
  }
}
