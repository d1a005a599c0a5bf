/**
 * The listing engine every dashboard applies to data already in memory:
 * order-preserving filtering (`Array.prototype.filter`), left folds
 * (`reduce`), the stable sort by creation time that `Array.prototype.sort`
 * performs with a timestamp comparator, and fixed-size pages cut with the
 * semantics of `Array.prototype.slice`.
 */
module Listing {
  import opened Text

  // ---------------------------------------------------------------------------
  // Case-insensitive name search
  // ---------------------------------------------------------------------------

  /** `${surname} ${name} ${patronymic}` */
  function FullName(surname: string, name: string, patronymic: string): (r: string)
    ensures |r| == |surname| + |name| + |patronymic| + 2
  {
    surname + " " + name + " " + patronymic
  }

  /** `text.toLowerCase().includes(term.toLowerCase())`; the empty term matches every text. */
  function Matches(text: string, term: string): (r: bool)
    ensures term == [] ==> r
  {
    ContainsEmpty(Lower(text));
    Contains(Lower(text), Lower(term))
  }

  /** Every part of a text is a search term that finds it. */
  lemma MatchesInfix(a: string, b: string, c: string)
    ensures Matches(a + b + c, b)
  {
    assert Lower(a + b + c) == Lower(a) + Lower(b) + Lower(c);
    ContainsInfix(Lower(a), Lower(b), Lower(c));
  }

  // ---------------------------------------------------------------------------
  // Filtering
  // ---------------------------------------------------------------------------

  /** `r` is `s` with some elements left out and the others in their order. */
  predicate IsSubsequence<T(==)>(r: seq<T>, s: seq<T>)
    decreases |s|
  {
    if r == [] then true
    else if s == [] then false
    else if r[0] == s[0] then IsSubsequence(r[1..], s[1..])
    else IsSubsequence(r, s[1..])
  }

  /**
   * `s.filter(p)`: exactly the elements satisfying `p`, each as often as in
   * `s`, in their original order.
   */
  function Filter<T(==,!new)>(s: seq<T>, p: T -> bool): (r: seq<T>)
    ensures |r| <= |s|
    ensures forall i :: 0 <= i < |r| ==> p(r[i])
  {
    if s == [] then []
    else if p(s[0]) then [s[0]] + Filter(s[1..], p)
    else Filter(s[1..], p)
  }

  /**
   * The filter keeps exactly the elements passing `p`, each as often as it
   * occurs, in their original order.
   */
  lemma {:induction false} FilterContents<T(!new)>(s: seq<T>, p: T -> bool)
    ensures forall x :: multiset(Filter(s, p))[x] == if p(x) then multiset(s)[x] else 0
    ensures IsSubsequence(Filter(s, p), s)
  {
    if s != [] {
      FilterContents(s[1..], p);
      assert s == [s[0]] + s[1..];
    }
  }

  lemma {:induction false} FilterAppend<T(!new)>(a: seq<T>, b: seq<T>, p: T -> bool)
    ensures Filter(a + b, p) == Filter(a, p) + Filter(b, p)
  {
    if a == [] {
      assert a + b == b;
    } else {
      assert (a + b)[0] == a[0] && (a + b)[1..] == a[1..] + b;
      FilterAppend(a[1..], b, p);
    }
  }

  /** Filtering with a weaker predicate keeps at least as many elements. */
  lemma {:induction false} FilterMonotone<T(!new)>(s: seq<T>, p: T -> bool, q: T -> bool)
    requires forall x :: p(x) ==> q(x)
    ensures |Filter(s, p)| <= |Filter(s, q)|
  {
    if s != [] { FilterMonotone(s[1..], p, q); }
  }

  /** A filter every element passes keeps the whole sequence. */
  lemma {:induction false} FilterAll<T(!new)>(s: seq<T>, p: T -> bool)
    requires forall i :: 0 <= i < |s| ==> p(s[i])
    ensures Filter(s, p) == s
  {
    if s != [] {
      FilterAll(s[1..], p);
      assert s == [s[0]] + s[1..];
    }
  }

  /** The filter keeps nothing exactly when no element passes. */
  lemma {:induction false} FilterEmpty<T(!new)>(s: seq<T>, p: T -> bool)
    ensures Filter(s, p) == [] <==> forall i :: 0 <= i < |s| ==> !p(s[i])
  {
    if s != [] {
      FilterEmpty(s[1..], p);
      assert forall i :: 1 <= i < |s| ==> s[i] == s[1..][i - 1];
    }
  }

  /** A filter no element passes keeps nothing. */
  lemma {:induction false} FilterNone<T(!new)>(s: seq<T>, p: T -> bool)
    requires forall i :: 0 <= i < |s| ==> !p(s[i])
    ensures Filter(s, p) == []
  {
    if s != [] { FilterNone(s[1..], p); }
  }

  /** Filters with predicates that agree everywhere keep the same elements. */
  lemma {:induction false} FilterExt<T(!new)>(s: seq<T>, p: T -> bool, q: T -> bool)
    requires forall x :: p(x) == q(x)
    ensures Filter(s, p) == Filter(s, q)
  {
    if s != [] { FilterExt(s[1..], p, q); }
  }

  // ---------------------------------------------------------------------------
  // Sums and left folds
  // ---------------------------------------------------------------------------

  /** The sum of `f` over `s`. */
  function SumOf<T>(s: seq<T>, f: T -> int): int
  {
    if s == [] then 0 else f(s[0]) + SumOf(s[1..], f)
  }

  lemma {:induction false} SumOfAppend<T>(a: seq<T>, b: seq<T>, f: T -> int)
    ensures SumOf(a + b, f) == SumOf(a, f) + SumOf(b, f)
  {
    if a == [] {
      assert a + b == b;
    } else {
      assert (a + b)[0] == a[0] && (a + b)[1..] == a[1..] + b;
      SumOfAppend(a[1..], b, f);
    }
  }

  /** Sums over two sequences agree when their terms agree position by position. */
  lemma {:induction false} SumOfPointwise<A, B>(xs: seq<A>, f: A -> int, ys: seq<B>, g: B -> int)
    requires |xs| == |ys|
    requires forall i :: 0 <= i < |xs| ==> f(xs[i]) == g(ys[i])
    ensures SumOf(xs, f) == SumOf(ys, g)
  {
    if xs != [] { SumOfPointwise(xs[1..], f, ys[1..], g); }
  }

  /** A sum of terms that each add two parts is the sum of the two partial sums. */
  lemma {:induction false} SumOfAdd<T>(s: seq<T>, f: T -> int, g: T -> int, h: T -> int)
    requires forall i :: 0 <= i < |s| ==> f(s[i]) == g(s[i]) + h(s[i])
    ensures SumOf(s, f) == SumOf(s, g) + SumOf(s, h)
  {
    if s != [] { SumOfAdd(s[1..], f, g, h); }
  }

  /** A sum of zero terms is zero. */
  lemma {:induction false} SumOfZero<T>(s: seq<T>, f: T -> int)
    requires forall i :: 0 <= i < |s| ==> f(s[i]) == 0
    ensures SumOf(s, f) == 0
  {
    if s != [] { SumOfZero(s[1..], f); }
  }

  /** A sum of non-negative terms is non-negative. */
  lemma {:induction false} SumOfNonNegative<T>(s: seq<T>, f: T -> int)
    requires forall i :: 0 <= i < |s| ==> f(s[i]) >= 0
    ensures SumOf(s, f) >= 0
  {
    if s != [] { SumOfNonNegative(s[1..], f); }
  }

  /** The row sums of a table, summed over a sequence of rows. */
  function RowSums<A, B>(ys: seq<B>, f: (A, B) -> int): A -> int
  {
    x => SumOf(ys, y => f(x, y))
  }

  /** The column sums of a table, summed over a sequence of columns. */
  function ColumnSums<A, B>(xs: seq<A>, f: (A, B) -> int): B -> int
  {
    y => SumOf(xs, x => f(x, y))
  }

  /** A row sum equals any sum whose terms agree with that row. */
  lemma RowSumsPointwise<A, B>(ys: seq<B>, f: (A, B) -> int, x: A, g: B -> int)
    requires forall i :: 0 <= i < |ys| ==> f(x, ys[i]) == g(ys[i])
    ensures RowSums(ys, f)(x) == SumOf(ys, g)
  {
    SumOfPointwise(ys, y => f(x, y), ys, g);
  }

  /** A column sum equals any sum whose terms agree with that column. */
  lemma ColumnSumsPointwise<A, B>(xs: seq<A>, f: (A, B) -> int, y: B, g: A -> int)
    requires forall i :: 0 <= i < |xs| ==> f(xs[i], y) == g(xs[i])
    ensures ColumnSums(xs, f)(y) == SumOf(xs, g)
  {
    SumOfPointwise(xs, x => f(x, y), xs, g);
  }

  /** A double sum may be taken in either order. */
  lemma {:induction false} SumOfSwap<A, B>(xs: seq<A>, ys: seq<B>, f: (A, B) -> int)
    ensures SumOf(xs, RowSums(ys, f)) == SumOf(ys, ColumnSums(xs, f))
  {
    if xs == [] {
      SumOfZero(ys, ColumnSums(xs, f));
    } else {
      var r := xs[1..];
      SumOfSwap(r, ys, f);
      forall i | 0 <= i < |ys|
        ensures ColumnSums(xs, f)(ys[i]) == (y => f(xs[0], y))(ys[i]) + ColumnSums(r, f)(ys[i])
      {
      }
      SumOfAdd(ys, ColumnSums(xs, f), y => f(xs[0], y), ColumnSums(r, f));
    }
  }

  /** `s.reduce(step, acc)`: the left fold JavaScript performs. */
  function FoldLeft<T>(s: seq<T>, acc: int, step: (int, T) -> int): int
  {
    if s == [] then acc else FoldLeft(s[1..], step(acc, s[0]), step)
  }

  /** A `reduce` whose step adds `f` of each element, started at `acc`, adds the sum of `f`. */
  lemma {:induction false} FoldLeftSum<T>(s: seq<T>, acc: int, step: (int, T) -> int, f: T -> int)
    requires forall a: int, x: T :: step(a, x) == a + f(x)
    ensures FoldLeft(s, acc, step) == acc + SumOf(s, f)
  {
    if s != [] { FoldLeftSum(s[1..], step(acc, s[0]), step, f); }
  }

  // ---------------------------------------------------------------------------
  // Stable sort by a timestamp key
  // ---------------------------------------------------------------------------

  datatype SortDirection = Asc | Desc

  /**
   * The comparator `desc ? b - a : a - b` on timestamps is negative: the
   * element with key `x` must precede the element with key `y`.
   */
  predicate Precedes(d: SortDirection, x: int, y: int)
  {
    if d == Desc then x > y else x < y
  }

  /** In order for the direction: no element has to precede an earlier one. */
  predicate SortedBy<T>(s: seq<T>, key: T -> int, d: SortDirection)
  {
    forall i, j :: 0 <= i < j < |s| ==> !Precedes(d, key(s[j]), key(s[i]))
  }

  /** `x` placed into sorted `s` after every element it need not precede. */
  function Insert<T>(s: seq<T>, x: T, key: T -> int, d: SortDirection): (r: seq<T>)
    ensures |r| == |s| + 1
  {
    if s == [] || !Precedes(d, key(x), key(s[|s| - 1])) then s + [x]
    else Insert(s[..|s| - 1], x, key, d) + [s[|s| - 1]]
  }

  /** The stable sort of `s`: the only order a stable `Array.prototype.sort` can produce. */
  function SortBy<T>(s: seq<T>, key: T -> int, d: SortDirection): (r: seq<T>)
    ensures |r| == |s|
  {
    if s == [] then [] else Insert(SortBy(s[..|s| - 1], key, d), s[|s| - 1], key, d)
  }

  lemma {:induction false} InsertSorted<T>(s: seq<T>, x: T, key: T -> int, d: SortDirection)
    requires SortedBy(s, key, d)
    ensures SortedBy(Insert(s, x, key, d), key, d)
    ensures |Insert(s, x, key, d)| == |s| + 1
    ensures forall i :: 0 <= i < |Insert(s, x, key, d)| ==>
      Insert(s, x, key, d)[i] == x || exists j :: 0 <= j < |s| && Insert(s, x, key, d)[i] == s[j]
    ensures s != [] && Precedes(d, key(x), key(s[|s| - 1])) ==>
      Insert(s, x, key, d)[|s|] == s[|s| - 1]
  {
    if s == [] || !Precedes(d, key(x), key(s[|s| - 1])) {
    } else {
      var init := s[..|s| - 1];
      var last := s[|s| - 1];
      InsertSorted(init, x, key, d);
      var t := Insert(init, x, key, d);
      var r := t + [last];
      forall i | 0 <= i < |t| ensures !Precedes(d, key(last), key(t[i])) {
        if t[i] != x {
          var j :| 0 <= j < |init| && t[i] == init[j];
          assert init[j] == s[j];
        }
      }
      forall i | 0 <= i < |r| ensures r[i] == x || exists j :: 0 <= j < |s| && r[i] == s[j] {
        if i == |t| {
          assert r[i] == s[|s| - 1];
        } else if r[i] != x {
          var j :| 0 <= j < |init| && t[i] == init[j];
          assert r[i] == s[j];
        }
      }
    }
  }

  lemma {:induction false} InsertPermutation<T>(s: seq<T>, x: T, key: T -> int, d: SortDirection)
    ensures multiset(Insert(s, x, key, d)) == multiset(s) + multiset{x}
  {
    if s != [] && Precedes(d, key(x), key(s[|s| - 1])) {
      InsertPermutation(s[..|s| - 1], x, key, d);
      assert s == s[..|s| - 1] + [s[|s| - 1]];
    }
  }

  /** The sort puts the elements in order for the direction. */
  lemma {:induction false} SortBySorted<T>(s: seq<T>, key: T -> int, d: SortDirection)
    ensures SortedBy(SortBy(s, key, d), key, d)
  {
    if s != [] {
      SortBySorted(s[..|s| - 1], key, d);
      InsertSorted(SortBy(s[..|s| - 1], key, d), s[|s| - 1], key, d);
    }
  }

  /** The sort neither loses nor duplicates an element. */
  lemma {:induction false} SortByPermutation<T>(s: seq<T>, key: T -> int, d: SortDirection)
    ensures multiset(SortBy(s, key, d)) == multiset(s)
  {
    if s != [] {
      SortByPermutation(s[..|s| - 1], key, d);
      InsertPermutation(SortBy(s[..|s| - 1], key, d), s[|s| - 1], key, d);
      assert s == s[..|s| - 1] + [s[|s| - 1]];
    }
  }

  /** The elements sharing one key, in their order. */
  function WithKey<T>(key: T -> int, k: int): T -> bool
  {
    x => key(x) == k
  }

  /** A one-element filter keeps the element exactly when it passes. */
  lemma FilterSingleton<T(!new)>(y: T, p: T -> bool)
    ensures Filter([y], p) == if p(y) then [y] else []
  {
    assert [y][1..] == [];
  }

  lemma {:induction false} InsertStable<T(!new)>(s: seq<T>, x: T, key: T -> int, d: SortDirection, k: int)
    ensures Filter(Insert(s, x, key, d), WithKey(key, k)) == Filter(s, WithKey(key, k)) + Filter([x], WithKey(key, k))
  {
    var p := WithKey(key, k);
    if s == [] || !Precedes(d, key(x), key(s[|s| - 1])) {
      FilterAppend(s, [x], p);
    } else {
      var init := s[..|s| - 1];
      var last := s[|s| - 1];
      var fx, fl := Filter([x], p), Filter([last], p);
      assert Filter(Insert(s, x, key, d), p) == Filter(init, p) + fx + fl by {
        InsertStable(init, x, key, d, k);
        assert Insert(s, x, key, d) == Insert(init, x, key, d) + [last];
        FilterAppend(Insert(init, x, key, d), [last], p);
      }
      assert Filter(s, p) == Filter(init, p) + fl by {
        assert s == init + [last];
        FilterAppend(init, [last], p);
      }
      // `x` must precede `last`, so their keys differ and at most one is kept.
      assert fx == [] || fl == [] by {
        FilterSingleton(x, p);
        FilterSingleton(last, p);
      }
    }
  }

  /**
   * Stability: the elements that share a timestamp come out of the sort in
   * the order they went in.
   */
  lemma {:induction false} SortByStable<T(!new)>(s: seq<T>, key: T -> int, d: SortDirection, k: int)
    ensures Filter(SortBy(s, key, d), WithKey(key, k)) == Filter(s, WithKey(key, k))
  {
    if s != [] {
      var init := s[..|s| - 1];
      SortByStable(init, key, d, k);
      InsertStable(SortBy(init, key, d), s[|s| - 1], key, d, k);
      FilterAppend(init, [s[|s| - 1]], WithKey(key, k));
      assert s == init + [s[|s| - 1]];
    }
  }

  /** Not having to precede is transitive. */
  lemma NotPrecedesTrans(d: SortDirection, x: int, y: int, z: int)
    requires !Precedes(d, x, y) && !Precedes(d, y, z)
    ensures !Precedes(d, x, z)
  {
  }

  /** The last element kept by a filter is an element of the sequence. */
  lemma FilterLast<T(!new)>(s: seq<T>, p: T -> bool)
    requires Filter(s, p) != []
    ensures exists i :: 0 <= i < |s| && s[i] == Filter(s, p)[|Filter(s, p)| - 1]
  {
    var f := Filter(s, p);
    FilterContents(s, p);
    assert multiset(f)[f[|f| - 1]] > 0;
    assert f[|f| - 1] in multiset(s);
  }

  /** `x` need not precede anything in sorted `s`: filtering, then inserting, appends it. */
  lemma FilterInsertAtEnd<T(!new)>(s: seq<T>, x: T, key: T -> int, d: SortDirection, p: T -> bool)
    requires SortedBy(s, key, d) && s != [] && !Precedes(d, key(x), key(s[|s| - 1]))
    ensures Insert(Filter(s, p), x, key, d) == Filter(s, p) + [x]
  {
    var f := Filter(s, p);
    if f != [] {
      FilterLast(s, p);
      var i :| 0 <= i < |s| && s[i] == f[|f| - 1];
      if i < |s| - 1 {
        NotPrecedesTrans(d, key(x), key(s[|s| - 1]), key(s[i]));
      }
    }
  }

  /** `x` moves past the last element: filtering commutes with that step. */
  lemma FilterInsertShift<T(!new)>(init: seq<T>, last: T, x: T, key: T -> int, d: SortDirection, p: T -> bool)
    requires Precedes(d, key(x), key(last))
    requires Filter(Insert(init, x, key, d), p) == if p(x) then Insert(Filter(init, p), x, key, d) else Filter(init, p)
    ensures Filter(Insert(init, x, key, d) + [last], p)
      == if p(x) then Insert(Filter(init + [last], p), x, key, d) else Filter(init + [last], p)
  {
    FilterAppend(Insert(init, x, key, d), [last], p);
    FilterAppend(init, [last], p);
    FilterSingleton(last, p);
    if p(last) && p(x) {
      var g := Filter(init, p) + [last];
      assert g[..|g| - 1] == Filter(init, p) && g[|g| - 1] == last;
      assert Insert(g, x, key, d) == Insert(Filter(init, p), x, key, d) + [last];
    } else if !p(last) {
      assert Filter(init + [last], p) == Filter(init, p);
      assert Filter(Insert(init, x, key, d) + [last], p) == Filter(Insert(init, x, key, d), p);
    }
  }

  /**
   * Filtering after inserting into a sorted sequence is inserting into the
   * filtered sequence, when `x` is kept at all.
   */
  lemma {:induction false} FilterInsert<T(!new)>(s: seq<T>, x: T, key: T -> int, d: SortDirection, p: T -> bool)
    requires SortedBy(s, key, d)
    ensures Filter(Insert(s, x, key, d), p) == if p(x) then Insert(Filter(s, p), x, key, d) else Filter(s, p)
  {
    FilterSingleton(x, p);
    if s != [] {
      var init := s[..|s| - 1];
      var last := s[|s| - 1];
      assert s == init + [last];
      if !Precedes(d, key(x), key(last)) {
        FilterAppend(s, [x], p);
        FilterInsertAtEnd(s, x, key, d, p);
      } else {
        assert SortedBy(init, key, d);
        FilterInsert(init, x, key, d, p);
        FilterInsertShift(init, last, x, key, d, p);
      }
    }
  }

  /** Filtering and the stable sort commute. */
  lemma {:induction false} FilterSortBy<T(!new)>(s: seq<T>, key: T -> int, d: SortDirection, p: T -> bool)
    ensures Filter(SortBy(s, key, d), p) == SortBy(Filter(s, p), key, d)
  {
    if s != [] {
      var init := s[..|s| - 1];
      var last := s[|s| - 1];
      assert s == init + [last];
      FilterSortBy(init, key, d, p);
      SortBySorted(init, key, d);
      FilterInsert(SortBy(init, key, d), last, key, d, p);
      FilterAppend(init, [last], p);
      FilterSingleton(last, p);
      if p(last) {
        var g := Filter(init, p) + [last];
        assert g[..|g| - 1] == Filter(init, p) && g[|g| - 1] == last;
        assert SortBy(g, key, d) == Insert(SortBy(Filter(init, p), key, d), last, key, d);
      } else {
        assert Filter(s, p) == Filter(init, p);
      }
    }
  }

  /** One step of the insertion: `x` moves left past an element it must precede. */
  lemma InsertStep<T>(t: seq<T>, j: nat, x: T, key: T -> int, d: SortDirection)
    requires 0 < j <= |t| && Precedes(d, key(x), key(t[j - 1]))
    ensures Insert(t[..j], x, key, d) + t[j..] == Insert(t[..j - 1], x, key, d) + t[j - 1..]
  {
    assert t[..j][..j - 1] == t[..j - 1];
    assert t[j - 1..] == [t[j - 1]] + t[j..];
  }

  /** Where the insertion stops, `x` goes right after the prefix. */
  lemma InsertStop<T>(t: seq<T>, j: nat, x: T, key: T -> int, d: SortDirection)
    requires j <= |t| && (j == 0 || !Precedes(d, key(x), key(t[j - 1])))
    ensures Insert(t[..j], x, key, d) == t[..j] + [x]
  {
  }

  /**
   * Moves `a[i]` left past the elements of the sorted prefix `a[..i]` it
   * must precede, shifting them one place right.
   */
  method InsertLast<T>(a: array<T>, i: nat, key: T -> int, d: SortDirection)
    requires i < a.Length
    modifies a
    ensures a[..i + 1] == Insert(old(a[..i]), old(a[i]), key, d)
    ensures a[i + 1..] == old(a[i + 1..])
  {
    ghost var t := a[..i];
    var x := a[i];
    var j := i;
    assert t[..j] == t && t[j..] == [];
    while j > 0 && Precedes(d, key(x), key(a[j - 1]))
      invariant 0 <= j <= i
      invariant forall k :: 0 <= k < j ==> a[k] == t[k]
      invariant forall k :: j < k <= i ==> a[k] == t[k - 1]
      invariant forall k :: i < k < a.Length ==> a[k] == old(a[k])
      invariant Insert(t, x, key, d) == Insert(t[..j], x, key, d) + t[j..]
    {
      assert Insert(t, x, key, d) == Insert(t[..j - 1], x, key, d) + t[j - 1..] by {
        InsertStep(t, j, x, key, d);
      }
      a[j] := a[j - 1];
      j := j - 1;
    }
    a[j] := x;
    InsertPlaced(t, j, x, key, d, a[..i + 1]);
  }

  /** The array after the last shift and the write of `x` holds the insertion. */
  lemma InsertPlaced<T>(t: seq<T>, j: nat, x: T, key: T -> int, d: SortDirection, placed: seq<T>)
    requires j <= |t| && |placed| == |t| + 1
    requires j == 0 || !Precedes(d, key(x), key(t[j - 1]))
    requires forall k :: 0 <= k < j ==> placed[k] == t[k]
    requires placed[j] == x
    requires forall k :: j < k < |placed| ==> placed[k] == t[k - 1]
    requires Insert(t, x, key, d) == Insert(t[..j], x, key, d) + t[j..]
    ensures placed == Insert(t, x, key, d)
  {
    InsertStop(t, j, x, key, d);
    assert placed == t[..j] + [x] + t[j..];
  }

  /**
   * `a.sort(cmp)` in place, as the insertion sort that realises the stable
   * order: each element in turn is inserted into the sorted prefix before it.
   */
  method SortInPlace<T>(a: array<T>, key: T -> int, d: SortDirection)
    modifies a
    ensures a[..] == SortBy(old(a[..]), key, d)
  {
    ghost var orig := a[..];
    var i := 0;
    while i < a.Length
      invariant 0 <= i <= a.Length
      invariant a[..i] == SortBy(orig[..i], key, d)
      invariant a[i..] == orig[i..]
    {
      assert a[i] == orig[i] && a[i + 1..] == orig[i + 1..];
      InsertLast(a, i, key, d);
      assert orig[..i + 1][..i] == orig[..i];
      i := i + 1;
    }
    assert orig[..a.Length] == orig;
  }

  // ---------------------------------------------------------------------------
  // Pages
  // ---------------------------------------------------------------------------

  /** ITEMS_PER_PAGE of every paginated list. */
  const ItemsPerPage: nat := 10

  /** `Math.ceil(n / 10)`: the fewest pages of ten that hold `n` items. */
  function TotalPages(n: nat): (r: nat)
    ensures r * ItemsPerPage >= n
    ensures r > 0 ==> (r - 1) * ItemsPerPage < n
  {
    (n + ItemsPerPage - 1) / ItemsPerPage
  }

  /** A slice bound as `Array.prototype.slice` resolves it: negative counts from the end. */
  function SliceIndex(len: nat, k: int): (r: nat)
    ensures r <= len
  {
    if k < 0 then (if len + k < 0 then 0 else len + k) else if k > len then len else k
  }

  /** `s.slice(start, end)`. */
  function Slice<T>(s: seq<T>, start: int, end: int): seq<T>
  {
    var from := SliceIndex(|s|, start);
    var to := SliceIndex(|s|, end);
    if from < to then s[from..to] else []
  }

  /**
   * `list.slice((page - 1) * 10, page * 10)`: no page holds more than ten
   * items, whatever page number is asked for.
   */
  function Page<T>(s: seq<T>, page: int): (r: seq<T>)
    ensures |r| <= ItemsPerPage
  {
    var from := SliceIndex(|s|, (page - 1) * ItemsPerPage);
    var to := SliceIndex(|s|, page * ItemsPerPage);
    assert page <= 0 ==> to <= from + ItemsPerPage;
    Slice(s, (page - 1) * ItemsPerPage, page * ItemsPerPage)
  }

  /** A page inside the range is the window `[(page - 1) * 10, page * 10)` and is not empty. */
  lemma PageInRange<T>(s: seq<T>, page: int)
    requires 1 <= page <= TotalPages(|s|)
    ensures (page - 1) * ItemsPerPage < |s|
    ensures Page(s, page) == s[(page - 1) * ItemsPerPage .. if page * ItemsPerPage <= |s| then page * ItemsPerPage else |s|]
    ensures Page(s, page) != []
  {
  }

  /** A page past the last one, and page zero, are empty. */
  lemma PagePastEnd<T>(s: seq<T>, page: int)
    requires page > TotalPages(|s|) || page == 0
    ensures Page(s, page) == []
  {
  }

  /** The first `k` pages laid end to end. */
  function Pages<T>(s: seq<T>, k: nat): seq<T>
  {
    if k == 0 then [] else Pages(s, k - 1) + Page(s, k)
  }

  lemma {:induction false} PagesPrefix<T>(s: seq<T>, k: nat)
    ensures Pages(s, k) == s[..if k * ItemsPerPage <= |s| then k * ItemsPerPage else |s|]
  {
    if k > 0 {
      PagesPrefix(s, k - 1);
      var a := if (k - 1) * ItemsPerPage <= |s| then (k - 1) * ItemsPerPage else |s|;
      var b := if k * ItemsPerPage <= |s| then k * ItemsPerPage else |s|;
      assert s[..b] == s[..a] + s[a..b];
    }
  }

  /** Pages 1 to TotalPages, in order, reproduce the list exactly once each. */
  lemma PagesCover<T>(s: seq<T>)
    ensures Pages(s, TotalPages(|s|)) == s
  {
    PagesPrefix(s, TotalPages(|s|));
  }
}
