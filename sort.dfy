/**
 * `Iterable<T>.sortedWith(vararg selectors)`: a stable sort by a left-to-right
 * tuple of selector keys.  Keys are drawn from `int`, a total order; the source's
 * heterogeneous `Comparable` keys and its null ordering are not modelled.
 */
module Sort {

  /** `Int.compareTo` as `compareValues` returns it: -1, 0 or 1. */
  function CompareInt(a: int, b: int): int {
    if a < b then -1 else if a > b then 1 else 0
  }

  /** The key tuple of `x`: every selector applied to `x`, left to right. */
  function Keys<T>(selectors: seq<T -> int>, x: T): (k: seq<int>)
    ensures |k| == |selectors|
    ensures forall i :: 0 <= i < |selectors| ==> k[i] == selectors[i](x)
  {
    if selectors == [] then [] else [selectors[0](x)] + Keys(selectors[1..], x)
  }

  /**
   * The comparator `compareBy(*selectors)`: the first selector whose values
   * differ decides; all equal compares as 0.
   */
  function CompareBy<T>(selectors: seq<T -> int>, a: T, b: T): (c: int)
    ensures -1 <= c <= 1
  {
    if selectors == [] then 0
    else
      var diff := CompareInt(selectors[0](a), selectors[0](b));
      if diff != 0 then diff else CompareBy(selectors[1..], a, b)
  }

  /** Two elements compare as equal exactly when all their keys are equal. */
  lemma {:induction false} CompareByZero<T>(selectors: seq<T -> int>, a: T, b: T)
    ensures CompareBy(selectors, a, b) == 0 <==> Keys(selectors, a) == Keys(selectors, b)
  {
    if selectors != [] {
      CompareByZero(selectors[1..], a, b);
      assert Keys(selectors, a) == [selectors[0](a)] + Keys(selectors[1..], a);
      assert Keys(selectors, b) == [selectors[0](b)] + Keys(selectors[1..], b);
    }
  }

  /** Ties form an equivalence class: two elements tying with a third tie with each other. */
  lemma TieTransitive<T>(selectors: seq<T -> int>, a: T, b: T, c: T)
    requires CompareBy(selectors, a, c) == 0 && CompareBy(selectors, b, c) == 0
    ensures CompareBy(selectors, a, b) == 0
  {
    CompareByZero(selectors, a, c);
    CompareByZero(selectors, b, c);
    CompareByZero(selectors, a, b);
  }

  /** `u` comes strictly before `v` in lexicographic order. */
  ghost predicate LexLess(u: seq<int>, v: seq<int>) {
    exists i :: 0 <= i < |u| && i < |v| && u[..i] == v[..i] && u[i] < v[i]
  }

  lemma PrefixHead(s: seq<int>, i: int)
    ensures 0 < i <= |s| ==> s[..i][0] == s[0]
  {
  }

  /** A smaller head comes first. */
  lemma LexLessHeadLess(hu: int, u: seq<int>, hv: int, v: seq<int>)
    requires hu < hv
    ensures LexLess([hu] + u, [hv] + v)
  {
    assert ([hu] + u)[..0] == ([hv] + v)[..0];
  }

  /** A greater head never comes first. */
  lemma LexLessHeadGreater(hu: int, u: seq<int>, hv: int, v: seq<int>)
    requires hu > hv
    ensures !LexLess([hu] + u, [hv] + v)
  {
    var u1, v1 := [hu] + u, [hv] + v;
    forall i | 0 <= i < |u1| && i < |v1| && u1[..i] == v1[..i] ensures u1[i] >= v1[i] {
      if i > 0 {
        PrefixHead(u1, i);
        PrefixHead(v1, i);
        assert false;
      }
    }
  }

  /** Equal heads followed by ordered tails are ordered. */
  lemma LexLessExtend(h: int, u: seq<int>, v: seq<int>)
    requires LexLess(u, v)
    ensures LexLess([h] + u, [h] + v)
  {
    var i :| 0 <= i < |u| && i < |v| && u[..i] == v[..i] && u[i] < v[i];
    var u1, v1 := [h] + u, [h] + v;
    assert u1[..i + 1] == [h] + u[..i];
    assert v1[..i + 1] == [h] + v[..i];
    assert u1[i + 1] == u[i] && v1[i + 1] == v[i];
  }

  /** Ordered tuples with equal heads have ordered tails. */
  lemma LexLessTail(h: int, u: seq<int>, v: seq<int>)
    requires LexLess([h] + u, [h] + v)
    ensures LexLess(u, v)
  {
    var u1, v1 := [h] + u, [h] + v;
    var i :| 0 <= i < |u1| && i < |v1| && u1[..i] == v1[..i] && u1[i] < v1[i];
    assert i != 0 by { assert u1[0] == v1[0]; }
    assert u[..i - 1] == u1[..i][1..];
    assert v[..i - 1] == v1[..i][1..];
    assert u[i - 1] == u1[i] && v[i - 1] == v1[i];
  }

  /** Lexicographic order on tuples with a first component: the heads decide unless they are equal. */
  lemma LexLessCons(hu: int, u: seq<int>, hv: int, v: seq<int>)
    ensures LexLess([hu] + u, [hv] + v) <==> hu < hv || (hu == hv && LexLess(u, v))
  {
    if hu < hv {
      LexLessHeadLess(hu, u, hv, v);
    } else if hu > hv {
      LexLessHeadGreater(hu, u, hv, v);
    } else {
      if LexLess(u, v) {
        LexLessExtend(hu, u, v);
      }
      if LexLess([hu] + u, [hv] + v) {
        LexLessTail(hu, u, v);
      }
    }
  }

  /** The comparator orders elements by lexicographic comparison of their key tuples. */
  lemma {:induction false} CompareByIsLexicographic<T>(selectors: seq<T -> int>, a: T, b: T)
    ensures CompareBy(selectors, a, b) < 0 <==> LexLess(Keys(selectors, a), Keys(selectors, b))
  {
    if selectors != [] {
      CompareByIsLexicographic(selectors[1..], a, b);
      LexLessCons(selectors[0](a), Keys(selectors[1..], a), selectors[0](b), Keys(selectors[1..], b));
    }
  }

  /** Swapping the operands negates the comparison. */
  lemma {:induction false} CompareByAntisymmetric<T>(selectors: seq<T -> int>, a: T, b: T)
    ensures CompareBy(selectors, a, b) == -CompareBy(selectors, b, a)
  {
    if selectors != [] {
      CompareByAntisymmetric(selectors[1..], a, b);
    }
  }

  /** "Not after" is transitive. */
  lemma {:induction false} CompareByTransitive<T>(selectors: seq<T -> int>, a: T, b: T, c: T)
    requires CompareBy(selectors, a, b) <= 0 && CompareBy(selectors, b, c) <= 0
    ensures CompareBy(selectors, a, c) <= 0
  {
    if selectors != [] && selectors[0](a) == selectors[0](c) {
      CompareByTransitive(selectors[1..], a, b, c);
    }
  }

  /** Every element is not after every later one. */
  predicate SortedBy<T>(selectors: seq<T -> int>, s: seq<T>) {
    forall i, j {:trigger CompareBy(selectors, s[i], s[j])} :: 0 <= i < j < |s| ==> CompareBy(selectors, s[i], s[j]) <= 0
  }

  /** The elements of `s` that compare equal to `x` under all selectors, in their order in `s`. */
  function Ties<T>(selectors: seq<T -> int>, s: seq<T>, x: T): seq<T> {
    if s == [] then []
    else
      var last := s[|s| - 1];
      Ties(selectors, s[..|s| - 1], x) + (if CompareBy(selectors, last, x) == 0 then [last] else [])
  }

  /** Stability: every class of elements equal under all selectors keeps its input order. */
  ghost predicate Stable<T>(selectors: seq<T -> int>, input: seq<T>, output: seq<T>) {
    forall k {:trigger Ties(selectors, input, input[k])} :: 0 <= k < |input| ==> Ties(selectors, output, input[k]) == Ties(selectors, input, input[k])
  }

  /**
   * One step of insertion: `x` goes after the last element of `t` that is not
   * after it, which is where the in-place loop below stops shifting.
   */
  function Insert<T>(selectors: seq<T -> int>, t: seq<T>, x: T): (r: seq<T>)
  {
    if t == [] || CompareBy(selectors, t[|t| - 1], x) <= 0 then t + [x]
    else
      Insert(selectors, t[..|t| - 1], x) + [t[|t| - 1]]
  }

  /** The reference stable sort: insert the elements one by one, in input order. */
  function InsertionSort<T>(selectors: seq<T -> int>, s: seq<T>): seq<T> {
    if s == [] then []
    else
      Insert(selectors, InsertionSort(selectors, s[..|s| - 1]), s[|s| - 1])
  }

  /** Insertion adds exactly `x` to the elements. */
  lemma {:induction false} InsertPermutes<T>(selectors: seq<T -> int>, t: seq<T>, x: T)
    ensures multiset(Insert(selectors, t, x)) == multiset(t) + multiset{x}
  {
    if t != [] && CompareBy(selectors, t[|t| - 1], x) > 0 {
      InsertPermutes(selectors, t[..|t| - 1], x);
      assert t == t[..|t| - 1] + [t[|t| - 1]];
    }
  }

  /** The reference sort is a permutation of its input. */
  lemma {:induction false} InsertionSortPermutes<T>(selectors: seq<T -> int>, s: seq<T>)
    ensures multiset(InsertionSort(selectors, s)) == multiset(s)
  {
    if s != [] {
      InsertionSortPermutes(selectors, s[..|s| - 1]);
      InsertPermutes(selectors, InsertionSort(selectors, s[..|s| - 1]), s[|s| - 1]);
      assert s == s[..|s| - 1] + [s[|s| - 1]];
    }
  }

  lemma {:induction false} InsertSorted<T>(selectors: seq<T -> int>, t: seq<T>, x: T)
    requires SortedBy(selectors, t)
    ensures SortedBy(selectors, Insert(selectors, t, x))
  {
    var r := Insert(selectors, t, x);
    if t == [] || CompareBy(selectors, t[|t| - 1], x) <= 0 {
      forall i, j | 0 <= i < j < |r| ensures CompareBy(selectors, r[i], r[j]) <= 0 {
        if j == |t| && t != [] && i < |t| - 1 {
          CompareByTransitive(selectors, t[i], t[|t| - 1], x);
        }
      }
    } else {
      var t', last := t[..|t| - 1], t[|t| - 1];
      InsertSorted(selectors, t', x);
      var r' := Insert(selectors, t', x);
      InsertPermutes(selectors, t', x);
      assert r == r' + [last];
      CompareByAntisymmetric(selectors, last, x);
      forall i, j | 0 <= i < j < |r| ensures CompareBy(selectors, r[i], r[j]) <= 0 {
        if j == |r| - 1 {
          assert r[i] in multiset(r');
          if r[i] == x {
          } else {
            assert r[i] in multiset(t');
            var k :| 0 <= k < |t'| && t'[k] == r[i];
            assert t[k] == r[i];
          }
        }
      }
    }
  }

  /** The reference sort's output is sorted. */
  lemma {:induction false} InsertionSortSorted<T>(selectors: seq<T -> int>, s: seq<T>)
    ensures SortedBy(selectors, InsertionSort(selectors, s))
  {
    if s != [] {
      InsertionSortSorted(selectors, s[..|s| - 1]);
      InsertSorted(selectors, InsertionSort(selectors, s[..|s| - 1]), s[|s| - 1]);
    }
  }

  lemma TiesSnoc<T>(selectors: seq<T -> int>, s: seq<T>, e: T, x: T)
    ensures Ties(selectors, s + [e], x)
         == Ties(selectors, s, x) + (if CompareBy(selectors, e, x) == 0 then [e] else [])
  {
    assert (s + [e])[..|s|] == s;
  }

  /** Inserting `x` appends it to its own tie class and leaves every other class alone. */
  lemma {:induction false} InsertTies<T>(selectors: seq<T -> int>, t: seq<T>, x: T, y: T)
    ensures Ties(selectors, Insert(selectors, t, x), y)
         == Ties(selectors, t, y) + (if CompareBy(selectors, x, y) == 0 then [x] else [])
  {
    if t == [] || CompareBy(selectors, t[|t| - 1], x) <= 0 {
      TiesSnoc(selectors, t, x, y);
    } else {
      var t', last := t[..|t| - 1], t[|t| - 1];
      var tieX := if CompareBy(selectors, x, y) == 0 then [x] else [];
      var tieLast := if CompareBy(selectors, last, y) == 0 then [last] else [];
      assert t == t' + [last];
      assert Insert(selectors, t, x) == Insert(selectors, t', x) + [last];
      InsertTies(selectors, t', x, y);
      TiesSnoc(selectors, Insert(selectors, t', x), last, y);
      TiesSnoc(selectors, t', last, y);
      if CompareBy(selectors, x, y) == 0 && CompareBy(selectors, last, y) == 0 {
        TieTransitive(selectors, last, x, y);
      }
      assert tieX == [] || tieLast == [];
      assert Ties(selectors, t', y) + tieX + tieLast == Ties(selectors, t', y) + tieLast + tieX;
    }
  }

  lemma {:induction false} InsertionSortTies<T>(selectors: seq<T -> int>, s: seq<T>, x: T)
    ensures Ties(selectors, InsertionSort(selectors, s), x) == Ties(selectors, s, x)
  {
    if s != [] {
      var s', last := s[..|s| - 1], s[|s| - 1];
      InsertionSortTies(selectors, s', x);
      InsertTies(selectors, InsertionSort(selectors, s'), last, x);
    }
  }

  /** The reference sort is stable. */
  lemma InsertionSortStable<T>(selectors: seq<T -> int>, s: seq<T>)
    ensures Stable(selectors, s, InsertionSort(selectors, s))
  {
    forall k | 0 <= k < |s| ensures Ties(selectors, InsertionSort(selectors, s), s[k]) == Ties(selectors, s, s[k]) {
      InsertionSortTies(selectors, s, s[k]);
    }
  }

  /** In a sorted list no element comes after the last one. */
  lemma SortedLastIsGreatest<T>(selectors: seq<T -> int>, r: seq<T>, x: T)
    requires SortedBy(selectors, r) && r != [] && x in multiset(r)
    ensures CompareBy(selectors, x, r[|r| - 1]) <= 0
  {
    var k :| 0 <= k < |r| && r[k] == x;
    if k < |r| - 1 {
      assert CompareBy(selectors, r[k], r[|r| - 1]) <= 0;
    } else {
      CompareByZero(selectors, x, x);
    }
  }

  lemma SortedPrefix<T>(selectors: seq<T -> int>, r: seq<T>, n: nat)
    requires SortedBy(selectors, r) && n <= |r|
    ensures SortedBy(selectors, r[..n])
  {
    forall i, j | 0 <= i < j < n ensures CompareBy(selectors, r[..n][i], r[..n][j]) <= 0 {
      assert r[..n][i] == r[i] && r[..n][j] == r[j];
    }
  }

  /**
   * A sorted, stable permutation is unique: any stable sort of the same input
   * yields the same list, so the library's merge sort and the insertion sort
   * used here agree.
   */
  lemma {:induction false} SortedStableUnique<T>(selectors: seq<T -> int>, r: seq<T>, q: seq<T>)
    requires multiset(r) == multiset(q)
    requires SortedBy(selectors, r) && SortedBy(selectors, q)
    requires Stable(selectors, r, q)
    ensures r == q
  {
    if r != [] {
      assert |q| == |multiset(q)| == |multiset(r)| == |r|;
      var n := |r|;
      SortedStableSameLast(selectors, r, q);
      SortedStableDropLast(selectors, r, q);
      SortedPrefix(selectors, r, n - 1);
      SortedPrefix(selectors, q, n - 1);
      SortedStableUnique(selectors, r[..n - 1], q[..n - 1]);
      assert r == r[..n - 1] + [r[n - 1]] && q == q[..n - 1] + [q[n - 1]];
    }
  }

  lemma SeqCancelSuffix<T>(a: seq<T>, b: seq<T>, t: seq<T>)
    requires a + t == b + t
    ensures a == b
  {
    assert a == (a + t)[..|a|] && b == (b + t)[..|b|];
  }

  /** The last elements of two sorted permutations carry the greatest key, hence tie. */
  lemma SortedLastElementsTie<T>(selectors: seq<T -> int>, r: seq<T>, q: seq<T>)
    requires multiset(r) == multiset(q) && r != []
    requires SortedBy(selectors, r) && SortedBy(selectors, q)
    ensures |q| == |r| && CompareBy(selectors, q[|q| - 1], r[|r| - 1]) == 0
  {
    assert |q| == |multiset(q)| == |multiset(r)| == |r|;
    var rl, ql := r[|r| - 1], q[|q| - 1];
    assert ql in multiset(r) by { assert ql in q; }
    assert rl in multiset(q) by { assert rl in r; }
    SortedLastIsGreatest(selectors, r, ql);
    SortedLastIsGreatest(selectors, q, rl);
    CompareByAntisymmetric(selectors, rl, ql);
  }

  /** When the last element ties with `x`, it is also the last of `x`'s tie class. */
  lemma TiesLast<T>(selectors: seq<T -> int>, s: seq<T>, x: T)
    requires s != [] && CompareBy(selectors, s[|s| - 1], x) == 0
    ensures var t := Ties(selectors, s, x); t != [] && t[|t| - 1] == s[|s| - 1]
  {
  }

  /** The last elements tie; equal tie classes then make them equal. */
  lemma SortedStableSameLast<T>(selectors: seq<T -> int>, r: seq<T>, q: seq<T>)
    requires multiset(r) == multiset(q) && r != []
    requires SortedBy(selectors, r) && SortedBy(selectors, q)
    requires Stable(selectors, r, q)
    ensures |q| == |r| && q[|q| - 1] == r[|r| - 1]
  {
    SortedLastElementsTie(selectors, r, q);
    var n := |r|;
    var rl := r[n - 1];
    CompareByZero(selectors, rl, rl);
    TiesLast(selectors, r, rl);
    TiesLast(selectors, q, rl);
    assert Ties(selectors, q, r[n - 1]) == Ties(selectors, r, r[n - 1]);
  }

  /** Dropping an equal last element keeps both lists permutations of each other and stable. */
  lemma SortedStableDropLast<T>(selectors: seq<T -> int>, r: seq<T>, q: seq<T>)
    requires multiset(r) == multiset(q) && r != [] && |q| == |r| && q[|q| - 1] == r[|r| - 1]
    requires Stable(selectors, r, q)
    ensures multiset(r[..|r| - 1]) == multiset(q[..|q| - 1])
    ensures Stable(selectors, r[..|r| - 1], q[..|q| - 1])
  {
    DropLastPermutes(r, q);
    var n := |r|;
    var last := r[n - 1];
    var r', q' := r[..n - 1], q[..n - 1];
    assert r == r' + [last] && q == q' + [last];
    forall k | 0 <= k < |r'| ensures Ties(selectors, q', r'[k]) == Ties(selectors, r', r'[k]) {
      DropLastTies(selectors, r, q, k);
    }
  }

  lemma DropLastPermutes<T>(r: seq<T>, q: seq<T>)
    requires multiset(r) == multiset(q) && r != [] && |q| == |r| && q[|q| - 1] == r[|r| - 1]
    ensures multiset(r[..|r| - 1]) == multiset(q[..|q| - 1])
  {
    var n := |r|;
    var last := r[n - 1];
    assert r == r[..n - 1] + [last] && q == q[..n - 1] + [last];
    calc {
      multiset(r[..n - 1]);
      multiset(r) - multiset{last};
      multiset(q) - multiset{last};
      multiset(q[..n - 1]);
    }
  }

  lemma DropLastTies<T>(selectors: seq<T -> int>, r: seq<T>, q: seq<T>, k: nat)
    requires r != [] && |q| == |r| && q[|q| - 1] == r[|r| - 1] && k < |r| - 1
    requires Stable(selectors, r, q)
    ensures Ties(selectors, q[..|q| - 1], r[k]) == Ties(selectors, r[..|r| - 1], r[k])
  {
    var n := |r|;
    var last := r[n - 1];
    var r', q' := r[..n - 1], q[..n - 1];
    assert r == r' + [last] && q == q' + [last];
    var x := r[k];
    assert Ties(selectors, q, r[k]) == Ties(selectors, r, r[k]);
    var tail := if CompareBy(selectors, last, x) == 0 then [last] else [];
    TiesSnoc(selectors, r', last, x);
    TiesSnoc(selectors, q', last, x);
    SeqCancelSuffix(Ties(selectors, q', x), Ties(selectors, r', x), tail);
  }

  /** Sorting an already sorted list changes nothing. */
  lemma {:induction false} InsertionSortOfSorted<T>(selectors: seq<T -> int>, s: seq<T>)
    requires SortedBy(selectors, s)
    ensures InsertionSort(selectors, s) == s
  {
    if s != [] {
      var s', last := s[..|s| - 1], s[|s| - 1];
      assert SortedBy(selectors, s') by {
        forall i, j | 0 <= i < j < |s'| ensures CompareBy(selectors, s'[i], s'[j]) <= 0 {
          assert s'[i] == s[i] && s'[j] == s[j];
        }
      }
      InsertionSortOfSorted(selectors, s');
      if s' != [] {
        assert CompareBy(selectors, s[|s'| - 1], s[|s'|]) <= 0;
      }
      assert Insert(selectors, s', last) == s' + [last];
      assert s == s' + [last];
    }
  }

  /** Sorting is idempotent: sorting the output again returns it unchanged. */
  lemma InsertionSortIdempotent<T>(selectors: seq<T -> int>, s: seq<T>)
    ensures InsertionSort(selectors, InsertionSort(selectors, s)) == InsertionSort(selectors, s)
  {
    InsertionSortSorted(selectors, s);
    InsertionSortOfSorted(selectors, InsertionSort(selectors, s));
  }

  /**
   * Insertion puts `x` at `j` when every element from `j` on is after `x`
   * and the one before `j`, if any, is not.
   */
  lemma {:induction false} InsertPosition<T>(selectors: seq<T -> int>, done: seq<T>, j: nat, x: T)
    requires j <= |done| && (j == 0 || CompareBy(selectors, done[j - 1], x) <= 0)
    requires forall k :: j <= k < |done| ==> CompareBy(selectors, done[k], x) > 0
    ensures Insert(selectors, done, x) == done[..j] + [x] + done[j..]
    decreases |done|
  {
    if j < |done| {
      var init := done[..|done| - 1];
      assert init[..j] == done[..j];
      assert j > 0 ==> init[j - 1] == done[j - 1];
      InsertPosition(selectors, init, j, x);
      assert done[j..] == init[j..] + [done[|done| - 1]];
    }
  }

  /** One pass of the outer loop: the prefix of length i + 1 becomes the reference sort of the input's prefix. */
  lemma InsertionSortPrefix<T>(selectors: seq<T -> int>, input: seq<T>, i: nat)
    requires i < |input|
    ensures InsertionSort(selectors, input[..i + 1])
         == Insert(selectors, InsertionSort(selectors, input[..i]), input[i])
  {
    assert input[..i + 1][..i] == input[..i];
  }

  /** Moves `a[i]` left past every element of the sorted prefix `a[..i]` that is after it. */
  method InsertAt<T>(a: array<T>, i: nat, selectors: seq<T -> int>)
    requires i < a.Length
    modifies a
    ensures a[..i + 1] == Insert(selectors, old(a[..i]), old(a[i]))
    ensures a[i + 1..] == old(a[i + 1..])
  {
    ghost var done := a[..i];
    var x := a[i];
    var j := i;
    while j > 0 && CompareBy(selectors, a[j - 1], x) > 0
      invariant 0 <= j <= i
      invariant forall k :: 0 <= k < j ==> a[k] == done[k]
      invariant forall k :: j < k <= i ==> a[k] == done[k - 1]
      invariant forall k :: i < k < a.Length ==> a[k] == old(a[k])
      invariant forall k :: j <= k < i ==> CompareBy(selectors, done[k], x) > 0
    {
      a[j] := a[j - 1];
      j := j - 1;
    }
    InsertPosition(selectors, done, j, x);
    a[j] := x;
    ghost var inserted := done[..j] + [x] + done[j..];
    assert |inserted| == i + 1;
    forall k | 0 <= k <= i ensures a[k] == inserted[k] {
      if k < j {
        assert inserted[k] == done[k];
      } else if k > j {
        assert inserted[k] == done[k - 1];
      }
    }
    assert a[..i + 1] == inserted;
    assert a[i + 1..] == old(a[i + 1..]);
  }

  /**
   * `Array.sortWith(comparator)` on the backing array: a stable in-place sort.
   * Insertion sort stands for the library's merge sort; SortedStableUnique shows
   * that the choice of stable algorithm does not change the result.
   */
  method SortInPlace<T>(a: array<T>, selectors: seq<T -> int>)
    modifies a
    ensures a[..] == InsertionSort(selectors, old(a[..]))
  {
    ghost var input := a[..];
    var i := 0;
    while i < a.Length
      invariant 0 <= i <= a.Length
      invariant a[..i] == InsertionSort(selectors, input[..i])
      invariant a[i..] == input[i..]
    {
      assert a[i] == input[i];
      InsertAt(a, i, selectors);
      InsertionSortPrefix(selectors, input, i);
      i := i + 1;
    }
    assert a[..] == a[..a.Length] && input == input[..a.Length];
  }

  /**
   * `sortedWith(*selectors)`: a collection of at most one element is copied
   * unchanged; otherwise the elements are copied into an array (for a
   * `Collection`) or a mutable list (any other `Iterable`, whose `sortWith`
   * sorts its backing array) and sorted in place.  Both paths give the
   * reference sort of the input.
   */
  method SortedWith<T>(items: seq<T>, isCollection: bool, selectors: seq<T -> int>)
    returns (sorted: seq<T>)
    ensures sorted == InsertionSort(selectors, items)
    ensures SortedBy(selectors, sorted) && Stable(selectors, items, sorted)
    ensures multiset(sorted) == multiset(items)
    ensures |items| <= 1 ==> sorted == items
  {
    InsertionSortSorted(selectors, items);
    InsertionSortStable(selectors, items);
    InsertionSortPermutes(selectors, items);
    if isCollection {
      if |items| <= 1 {
        assert |items| == 1 ==> items == [] + [items[0]];
        return items;
      }
      var elements := new T[|items|](k requires 0 <= k < |items| => items[k]);
      assert elements[..] == items;
      SortInPlace(elements, selectors);
      sorted := elements[..];
    } else {
      var list := new T[|items|](k requires 0 <= k < |items| => items[k]);
      assert list[..] == items;
      SortInPlace(list, selectors);
      sorted := list[..];
    }
  }
}
