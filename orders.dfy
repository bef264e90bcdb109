/**
 * Orderings shared by the dashboard's sorts: total preorders given as
 * comparison functions, the lexicographic order on strings used for sector
 * names, an in-place sort of an array, and the sorted list of distinct
 * values produced by the database's DISTINCT ... ORDER BY.
 */
module Orders {

  /** `le(x, y)` means "x may come before y": every pair is comparable and the relation is transitive. */
  ghost predicate TotalPreorder<T(!new)>(le: (T, T) -> bool) {
    && (forall x, y :: le(x, y) || le(y, x))
    && (forall x, y, z :: le(x, y) && le(y, z) ==> le(x, z))
  }

  /** `lt` is a strict total order: irreflexive, transitive and connected. */
  ghost predicate StrictTotalOrder<T(!new)>(lt: (T, T) -> bool) {
    && (forall x :: !lt(x, x))
    && (forall x, y, z :: lt(x, y) && lt(y, z) ==> lt(x, z))
    && (forall x, y :: x != y ==> lt(x, y) || lt(y, x))
  }

  ghost predicate SortedBy<T>(s: seq<T>, le: (T, T) -> bool) {
    forall p, q :: 0 <= p < q < |s| ==> le(s[p], s[q])
  }

  ghost predicate StrictlyIncreasing<T>(s: seq<T>, lt: (T, T) -> bool) {
    forall p, q :: 0 <= p < q < |s| ==> lt(s[p], s[q])
  }

  /** A strictly increasing sequence holds no value twice. */
  lemma StrictlyIncreasingDistinct<T(!new)>(s: seq<T>, lt: (T, T) -> bool, p: int, q: int)
    requires StrictTotalOrder(lt) && StrictlyIncreasing(s, lt)
    requires 0 <= p < |s| && 0 <= q < |s| && p != q
    ensures s[p] != s[q]
  {
    if p < q {
      assert lt(s[p], s[q]);
    } else {
      assert lt(s[q], s[p]);
    }
  }

  // ---------------------------------------------------------------------
  // Lexicographic order on strings (character codes, no locale)
  // ---------------------------------------------------------------------

  /** `a` sorts at or before `b`: a prefix comes first, otherwise the first differing character decides. */
  predicate StrLeq(a: string, b: string) {
    |a| == 0 || (|b| > 0 && (a[0] < b[0] || (a[0] == b[0] && StrLeq(a[1..], b[1..]))))
  }

  predicate StrLess(a: string, b: string) {
    StrLeq(a, b) && a != b
  }

  lemma {:induction false} StrLeqTotal(a: string, b: string)
    ensures StrLeq(a, b) || StrLeq(b, a)
  {
    if |a| > 0 && |b| > 0 && a[0] == b[0] {
      StrLeqTotal(a[1..], b[1..]);
    }
  }

  lemma {:induction false} StrLeqTransitive(a: string, b: string, c: string)
    requires StrLeq(a, b) && StrLeq(b, c)
    ensures StrLeq(a, c)
  {
    if |a| > 0 && a[0] == b[0] && b[0] == c[0] {
      StrLeqTransitive(a[1..], b[1..], c[1..]);
    }
  }

  lemma {:induction false} StrLeqAntisymmetric(a: string, b: string)
    requires StrLeq(a, b) && StrLeq(b, a)
    ensures a == b
  {
    if |a| > 0 {
      StrLeqAntisymmetric(a[1..], b[1..]);
      assert a == [a[0]] + a[1..];
      assert b == [b[0]] + b[1..];
    }
  }

  lemma StrLeqIsTotalPreorder()
    ensures TotalPreorder(StrLeq)
  {
    forall x, y ensures StrLeq(x, y) || StrLeq(y, x) {
      StrLeqTotal(x, y);
    }
    forall x, y, z | StrLeq(x, y) && StrLeq(y, z) ensures StrLeq(x, z) {
      StrLeqTransitive(x, y, z);
    }
  }

  lemma StrLessIsStrictTotalOrder()
    ensures StrictTotalOrder(StrLess)
  {
    forall x, y, z | StrLess(x, y) && StrLess(y, z) ensures StrLess(x, z) {
      StrLeqTransitive(x, y, z);
      if x == z {
        StrLeqAntisymmetric(x, y);
      }
    }
    forall x, y | x != y ensures StrLess(x, y) || StrLess(y, x) {
      StrLeqTotal(x, y);
    }
  }

  // ---------------------------------------------------------------------
  // Stable insertion sort
  // ---------------------------------------------------------------------

  /**
   * Inserts `x` into `t` from the back: `x` moves left past every element
   * that `le` strictly puts after it and stops behind the first one that may
   * come before it.
   */
  function Insert<T>(t: seq<T>, x: T, le: (T, T) -> bool): (r: seq<T>)
    ensures |r| == |t| + 1
  {
    if t == [] || le(t[|t| - 1], x) then t + [x]
    else Insert(t[..|t| - 1], x, le) + [t[|t| - 1]]
  }

  /** The insertion sort of `s`: each element in turn is inserted into the sorted elements before it. */
  function StableSort<T>(s: seq<T>, le: (T, T) -> bool): (r: seq<T>)
    ensures |r| == |s|
  {
    if s == [] then [] else Insert(StableSort(s[..|s| - 1], le), s[|s| - 1], le)
  }

  /** `x` lands at position `j` when everything from `j` on is strictly after it and the element before `j` is not. */
  lemma {:induction false} InsertAt<T>(t: seq<T>, x: T, j: nat, le: (T, T) -> bool)
    requires j <= |t|
    requires j == 0 || le(t[j - 1], x)
    requires forall k :: j <= k < |t| ==> !le(t[k], x)
    ensures Insert(t, x, le) == t[..j] + [x] + t[j..]
  {
    if j < |t| {
      var n := |t| - 1;
      InsertAt(t[..n], x, j, le);
      assert t[..n][..j] == t[..j];
      assert t[..j] + [x] + t[j..] == t[..j] + [x] + t[j..n] + [t[n]];
    }
  }

  /** Inserting adds exactly `x`, whatever the order. */
  lemma {:induction false} InsertPerm<T>(t: seq<T>, x: T, le: (T, T) -> bool)
    ensures multiset(Insert(t, x, le)) == multiset(t) + multiset{x}
  {
    if t != [] && !le(t[|t| - 1], x) {
      var n := |t| - 1;
      InsertPerm(t[..n], x, le);
      assert t == t[..n] + [t[n]];
    }
  }

  /** The sort only rearranges its input, whatever the order. */
  lemma {:induction false} StableSortPerm<T>(s: seq<T>, le: (T, T) -> bool)
    ensures multiset(StableSort(s, le)) == multiset(s)
  {
    if s != [] {
      var n := |s| - 1;
      StableSortPerm(s[..n], le);
      InsertPerm(StableSort(s[..n], le), s[n], le);
      assert s == s[..n] + [s[n]];
    }
  }

  /** A bound `y` above `x` and above every element of `t` is above every element after the insertion. */
  lemma {:induction false} InsertBound<T>(t: seq<T>, x: T, y: T, le: (T, T) -> bool)
    requires forall k :: 0 <= k < |t| ==> le(t[k], y)
    requires le(x, y)
    ensures forall k :: 0 <= k < |t| + 1 ==> le(Insert(t, x, le)[k], y)
  {
    if t != [] && !le(t[|t| - 1], x) {
      var n := |t| - 1;
      InsertBound(t[..n], x, y, le);
    }
  }

  /** Inserting into a sorted sequence keeps it sorted. */
  lemma {:induction false} InsertSorted<T(!new)>(t: seq<T>, x: T, le: (T, T) -> bool)
    requires TotalPreorder(le) && SortedBy(t, le)
    ensures SortedBy(Insert(t, x, le), le)
  {
    var n := |t| - 1;
    if t != [] && !le(t[n], x) {
      var init := t[..n];
      assert SortedBy(init, le);
      InsertSorted(init, x, le);
      assert le(x, t[n]);
      InsertBound(init, x, t[n], le);
    } else if t != [] {
      assert forall k :: 0 <= k < |t| ==> le(t[k], x) by {
        forall k | 0 <= k < n ensures le(t[k], x) {
          assert le(t[k], t[n]);
        }
      }
    }
  }

  /** The sort yields a sorted permutation of its input. */
  lemma {:induction false} StableSortSorted<T(!new)>(s: seq<T>, le: (T, T) -> bool)
    requires TotalPreorder(le)
    ensures SortedBy(StableSort(s, le), le)
    ensures multiset(StableSort(s, le)) == multiset(s)
  {
    StableSortPerm(s, le);
    if s != [] {
      var n := |s| - 1;
      StableSortSorted(s[..n], le);
      InsertSorted(StableSort(s[..n], le), s[n], le);
    }
  }

  /** A sequence already in order is its own sort, so sorting twice is sorting once. */
  lemma {:induction false} StableSortOfSorted<T>(s: seq<T>, le: (T, T) -> bool)
    requires SortedBy(s, le)
    ensures StableSort(s, le) == s
  {
    if s != [] {
      var n := |s| - 1;
      var init := s[..n];
      assert SortedBy(init, le) by {
        forall p, q | 0 <= p < q < n ensures le(init[p], init[q]) {
          assert init[p] == s[p] && init[q] == s[q];
        }
      }
      StableSortOfSorted(init, le);
      if n > 0 {
        assert le(init[n - 1], s[n]) by {
          assert init[n - 1] == s[n - 1];
        }
      }
      assert Insert(init, s[n], le) == init + [s[n]];
      assert s == init + [s[n]];
    }
  }

  /** The elements of `s` that `le` ranks level with `e`, in their order in `s`. */
  function Ties<T>(s: seq<T>, e: T, le: (T, T) -> bool): seq<T> {
    if s == [] then []
    else
      var y := s[|s| - 1];
      Ties(s[..|s| - 1], e, le) + (if le(y, e) && le(e, y) then [y] else [])
  }

  lemma {:induction false} TiesAppend<T>(s: seq<T>, t: seq<T>, e: T, le: (T, T) -> bool)
    ensures Ties(s + t, e, le) == Ties(s, e, le) + Ties(t, e, le)
  {
    if t == [] {
      assert s + t == s;
    } else {
      var n := |t| - 1;
      TiesAppend(s, t[..n], e, le);
      assert (s + t)[..|s + t| - 1] == s + t[..n];
      assert (s + t)[|s + t| - 1] == t[n];
    }
  }

  /** `x` never passes an element level with it, so the level elements keep their order. */
  lemma {:induction false} InsertTies<T(!new)>(t: seq<T>, x: T, e: T, le: (T, T) -> bool)
    requires TotalPreorder(le)
    ensures Ties(Insert(t, x, le), e, le) == Ties(t, e, le) + Ties([x], e, le)
  {
    if t == [] || le(t[|t| - 1], x) {
      TiesAppend(t, [x], e, le);
    } else {
      var n := |t| - 1;
      var init := t[..n];
      InsertTies(init, x, e, le);
      TiesAppend(Insert(init, x, le), [t[n]], e, le);
      TiesAppend(init, [t[n]], e, le);
      assert t == init + [t[n]];
      assert Ties([x], e, le) == [] || Ties([t[n]], e, le) == [] by {
        assert [x][..0] == [] && [t[n]][..0] == [];
      }
    }
  }

  /** Stability: elements that `le` ranks level with one another come out in their input order. */
  lemma {:induction false} StableSortKeepsTies<T(!new)>(s: seq<T>, e: T, le: (T, T) -> bool)
    requires TotalPreorder(le)
    ensures Ties(StableSort(s, le), e, le) == Ties(s, e, le)
  {
    if s != [] {
      var n := |s| - 1;
      StableSortKeepsTies(s[..n], e, le);
      InsertTies(StableSort(s[..n], le), s[n], e, le);
      TiesAppend(s[..n], [s[n]], e, le);
      assert s == s[..n] + [s[n]];
    }
  }

  /** `x` goes first exactly when every element of `t` is strictly after it. */
  lemma {:induction false} InsertFirst<T>(t: seq<T>, x: T, le: (T, T) -> bool)
    requires |t| > 0
    ensures Insert(t, x, le)[0] == if exists k :: 0 <= k < |t| && le(t[k], x) then t[0] else x
  {
    var n := |t| - 1;
    if !le(t[n], x) && n > 0 {
      InsertFirst(t[..n], x, le);
      if exists k :: 0 <= k < |t| && le(t[k], x) {
        var k :| 0 <= k < |t| && le(t[k], x);
        assert t[..n][k] == t[k];
      }
    }
  }

  /** `s[i]` may come before every element of `s`, and every element earlier in `s` is strictly after it. */
  ghost predicate IsFirstLeast<T>(s: seq<T>, i: int, le: (T, T) -> bool) {
    && 0 <= i < |s|
    && (forall j :: 0 <= j < |s| ==> le(s[i], s[j]))
    && (forall j :: 0 <= j < i ==> !le(s[j], s[i]))
  }

  /** `s[i]` may come after every element of `s`, and every element later in `s` is strictly before it. */
  ghost predicate IsLastGreatest<T>(s: seq<T>, i: int, le: (T, T) -> bool) {
    && 0 <= i < |s|
    && (forall j :: 0 <= j < |s| ==> le(s[j], s[i]))
    && (forall j :: i < j < |s| ==> !le(s[i], s[j]))
  }

  lemma FirstLeastKeep<T(!new)>(s: seq<T>, i: int, y: T, m: int, le: (T, T) -> bool)
    requires TotalPreorder(le) && IsFirstLeast(s, i, le)
    requires 0 <= m < |s| && le(s[m], y)
    ensures IsFirstLeast(s + [y], i, le)
  {
    assert le(s[i], s[m]);
  }

  lemma FirstLeastNew<T(!new)>(s: seq<T>, y: T, le: (T, T) -> bool)
    requires TotalPreorder(le)
    requires forall m :: 0 <= m < |s| ==> !le(s[m], y)
    ensures IsFirstLeast(s + [y], |s|, le)
  {
    assert le(y, y);
  }

  lemma LastGreatestKeep<T(!new)>(s: seq<T>, i: int, y: T, le: (T, T) -> bool)
    requires TotalPreorder(le) && IsLastGreatest(s, i, le)
    requires !le(s[i], y)
    ensures IsLastGreatest(s + [y], i, le)
  {
    assert le(y, s[i]);
  }

  lemma LastGreatestNew<T(!new)>(s: seq<T>, y: T, le: (T, T) -> bool)
    requires TotalPreorder(le)
    requires forall m :: 0 <= m < |s| ==> le(s[m], y)
    ensures IsLastGreatest(s + [y], |s|, le)
  {
    assert le(y, y);
  }

  /** The first element of the sort is the earliest element of `s` that may come before every element. */
  lemma {:induction false} StableSortFirst<T(!new)>(s: seq<T>, le: (T, T) -> bool)
    requires TotalPreorder(le) && |s| > 0
    ensures exists i :: IsFirstLeast(s, i, le) && StableSort(s, le)[0] == s[i]
  {
    var n := |s| - 1;
    var init := s[..n];
    assert s == init + [s[n]];
    var t := StableSort(init, le);
    assert StableSort(s, le) == Insert(t, s[n], le);
    if n == 0 {
      FirstLeastNew(init, s[n], le);
      assert IsFirstLeast(s, 0, le);
    } else {
      StableSortFirst(init, le);
      var i :| IsFirstLeast(init, i, le) && t[0] == init[i];
      InsertFirst(t, s[n], le);
      StableSortPerm(init, le);
      if exists k :: 0 <= k < |t| && le(t[k], s[n]) {
        var k :| 0 <= k < |t| && le(t[k], s[n]);
        assert t[k] in multiset(init);
        var m :| 0 <= m < n && init[m] == t[k];
        FirstLeastKeep(init, i, s[n], m, le);
        assert IsFirstLeast(s, i, le) && StableSort(s, le)[0] == s[i];
      } else {
        forall m | 0 <= m < n ensures !le(init[m], s[n]) {
          assert init[m] in multiset(t);
          var k :| 0 <= k < |t| && t[k] == init[m];
        }
        FirstLeastNew(init, s[n], le);
        assert IsFirstLeast(s, n, le) && StableSort(s, le)[0] == s[n];
      }
    }
  }

  /** The last element of the sort is the latest element of `s` that may come after every element. */
  lemma {:induction false} StableSortLast<T(!new)>(s: seq<T>, le: (T, T) -> bool)
    requires TotalPreorder(le) && |s| > 0
    ensures exists i :: IsLastGreatest(s, i, le) && StableSort(s, le)[|s| - 1] == s[i]
  {
    var n := |s| - 1;
    var init := s[..n];
    assert s == init + [s[n]];
    var t := StableSort(init, le);
    assert StableSort(s, le) == Insert(t, s[n], le);
    StableSortSorted(init, le);
    if n == 0 || le(t[n - 1], s[n]) {
      forall m | 0 <= m < n ensures le(init[m], s[n]) {
        assert init[m] in multiset(t);
        var k :| 0 <= k < |t| && t[k] == init[m];
        if k < n - 1 {
          assert le(t[k], t[n - 1]);
        }
      }
      LastGreatestNew(init, s[n], le);
      assert IsLastGreatest(s, n, le) && StableSort(s, le)[n] == s[n];
    } else {
      StableSortLast(init, le);
      var i :| IsLastGreatest(init, i, le) && t[n - 1] == init[i];
      LastGreatestKeep(init, i, s[n], le);
      assert IsLastGreatest(s, i, le) && StableSort(s, le)[n] == s[i];
    }
  }

  /**
   * Sorts `a` in place by `le` (`Array.prototype.sort`, which is stable): the
   * result is the stable insertion sort of the input.
   */
  method SortInPlace<T(!new)>(a: array<T>, le: (T, T) -> bool)
    requires TotalPreorder(le)
    modifies a
    ensures a[..] == StableSort(old(a[..]), le)
    ensures SortedBy(a[..], le)
    ensures multiset(a[..]) == multiset(old(a[..]))
    ensures SortedBy(old(a[..]), le) ==> a[..] == old(a[..])
  {
    ghost var s := a[..];
    var i := 0;
    while i < a.Length
      invariant 0 <= i <= a.Length
      invariant a[..i] == StableSort(s[..i], le)
      invariant a[i..] == s[i..]
    {
      assert s[..i + 1][..i] == s[..i];
      assert StableSort(s[..i + 1], le) == Insert(StableSort(s[..i], le), s[i], le);
      assert a[i] == s[i];
      InsertIntoPrefix(a, i, le);
      i := i + 1;
    }
    assert a[..] == a[..a.Length] && s == s[..a.Length];
    StableSortSorted(s, le);
    if SortedBy(s, le) {
      StableSortOfSorted(s, le);
    }
  }

  /** `[...s].sort(...)`: sorts a copy of `s` and leaves `s` alone. */
  method Sorted<T(!new)>(s: seq<T>, le: (T, T) -> bool) returns (r: seq<T>)
    requires TotalPreorder(le)
    ensures r == StableSort(s, le)
  {
    var a := new T[|s|](i requires 0 <= i < |s| => s[i]);
    assert a[..] == s;
    SortInPlace(a, le);
    r := a[..];
  }

  /** Swapping the moving element with its left neighbour moves it one place left. */
  lemma SwapLeft<T>(t: seq<T>, x: T, rest: seq<T>, j: nat)
    requires 0 < j <= |t|
    ensures (t[..j] + [x] + t[j..] + rest)[j - 1 := x][j := t[j - 1]] == t[..j - 1] + [x] + t[j - 1..] + rest
  {
    var u := t[..j] + [x] + t[j..] + rest;
    var v := t[..j - 1] + [x] + t[j - 1..] + rest;
    assert |u[j - 1 := x][j := t[j - 1]]| == |v|;
    forall k | 0 <= k < |v| ensures u[j - 1 := x][j := t[j - 1]][k] == v[k] {
      if k < j - 1 {
        assert v[k] == t[k] && u[k] == t[k];
      } else if j < k <= |t| {
        assert v[k] == t[k - 1] && u[k] == t[k - 1];
      } else if k > |t| {
        assert v[k] == rest[k - |t| - 1] && u[k] == rest[k - |t| - 1];
      }
    }
  }

  /** One step of the insertion sort: moves `a[i]` left into `a[..i]` by adjacent swaps. */
  method InsertIntoPrefix<T>(a: array<T>, i: nat, le: (T, T) -> bool)
    requires i < a.Length
    modifies a
    ensures a[..i + 1] == Insert(old(a[..i]), old(a[i]), le)
    ensures a[i + 1..] == old(a[i + 1..])
  {
    ghost var t := a[..i];
    ghost var x := a[i];
    ghost var rest := a[i + 1..];
    assert a[..] == t[..i] + [x] + t[i..] + rest;
    var j := i;
    while 0 < j && !le(a[j - 1], a[j])
      invariant 0 <= j <= i
      invariant a[..] == t[..j] + [x] + t[j..] + rest
      invariant forall k :: j <= k < i ==> !le(t[k], x)
    {
      assert a[j - 1] == t[j - 1] && a[j] == x;
      SwapLeft(t, x, rest, j);
      a[j - 1], a[j] := a[j], a[j - 1];
      j := j - 1;
    }
    assert j == 0 || (a[j - 1] == t[j - 1] && a[j] == x);
    InsertAt(t, x, j, le);
    assert a[..i + 1] == a[..][..i + 1];
    assert a[i + 1..] == a[..][i + 1..];
  }

  // ---------------------------------------------------------------------
  // Sorted distinct values
  // ---------------------------------------------------------------------

  /** Inserts `x` into the strictly increasing `s`, unless it is already there. */
  function InsertDistinct<T(!new, ==)>(s: seq<T>, x: T, lt: (T, T) -> bool): (r: seq<T>)
    requires StrictTotalOrder(lt) && StrictlyIncreasing(s, lt)
    ensures StrictlyIncreasing(r, lt)
    ensures forall y :: y in r <==> y in s || y == x
    ensures |r| <= |s| + 1
  {
    if s == [] then [x]
    else if x == s[0] then s
    else if lt(x, s[0]) then [x] + s
    else
      var tail := InsertDistinct(s[1..], x, lt);
      assert forall y :: y in tail ==> lt(s[0], y);
      [s[0]] + tail
  }

  /** The distinct values of `s` in increasing order (DISTINCT ... ORDER BY). */
  function SortedDistinct<T(!new, ==)>(s: seq<T>, lt: (T, T) -> bool): (r: seq<T>)
    requires StrictTotalOrder(lt)
    ensures StrictlyIncreasing(r, lt)
    ensures forall y :: y in r <==> y in s
    ensures |r| <= |s|
  {
    if s == [] then []
    else
      assert s == s[..|s| - 1] + [s[|s| - 1]];
      InsertDistinct(SortedDistinct(s[..|s| - 1], lt), s[|s| - 1], lt)
  }
}
