/**
  The sorting the program borrows from Go's `sort` package, as a stable insertion
  sort: what callers rely on is that the result is ordered, has the same elements,
  and (for a total order) depends on nothing but those elements.
 */
module Sorting {

  /** A strict weak order: what `sort` asks of its comparison. */
  ghost predicate StrictWeak<T(!new)>(less: (T, T) -> bool) {
    && (forall x, y :: less(x, y) ==> !less(y, x))
    && (forall x, y, z :: less(x, z) ==> less(x, y) || less(y, z))
  }

  /** Additionally, only equal elements are unordered. */
  ghost predicate StrictTotal<T(!new)>(less: (T, T) -> bool) {
    && StrictWeak(less)
    && (forall x, y :: !less(x, y) && !less(y, x) ==> x == y)
  }

  ghost predicate Sorted<T>(s: seq<T>, less: (T, T) -> bool) {
    forall i, j :: 0 <= i < j < |s| ==> !less(s[j], s[i])
  }

  function Insert<T>(s: seq<T>, a: T, less: (T, T) -> bool): seq<T> {
    if s == [] || !less(a, s[|s| - 1]) then s + [a]
    else Insert(s[..|s| - 1], a, less) + [s[|s| - 1]]
  }

  function Sort<T>(s: seq<T>, less: (T, T) -> bool): seq<T> {
    if s == [] then [] else Insert(Sort(s[..|s| - 1], less), s[|s| - 1], less)
  }

  lemma {:induction false} InsertElements<T>(s: seq<T>, a: T, less: (T, T) -> bool)
    ensures multiset(Insert(s, a, less)) == multiset(s) + multiset{a}
  {
    if s == [] || !less(a, s[|s| - 1]) {
    } else {
      InsertElements(s[..|s| - 1], a, less);
      assert s == s[..|s| - 1] + [s[|s| - 1]];
    }
  }

  lemma {:induction false} InsertSorted<T(!new)>(s: seq<T>, a: T, less: (T, T) -> bool)
    requires StrictWeak(less) && Sorted(s, less)
    ensures Sorted(Insert(s, a, less), less)
  {
    if s == [] || !less(a, s[|s| - 1]) {
    } else {
      var n := |s| - 1;
      var p := Insert(s[..n], a, less);
      InsertSorted(s[..n], a, less);
      InsertElements(s[..n], a, less);
      forall i | 0 <= i < |p| ensures !less(s[n], p[i]) {
        assert p[i] in multiset(p);
        assert p[i] == a || p[i] in s[..n];
      }
    }
  }

  /** Sorting keeps the elements and orders them. */
  lemma {:induction false} SortCorrect<T(!new)>(s: seq<T>, less: (T, T) -> bool)
    requires StrictWeak(less)
    ensures multiset(Sort(s, less)) == multiset(s)
    ensures Sorted(Sort(s, less), less)
  {
    if s != [] {
      var n := |s| - 1;
      SortCorrect(s[..n], less);
      InsertElements(Sort(s[..n], less), s[n], less);
      InsertSorted(Sort(s[..n], less), s[n], less);
      assert s == s[..n] + [s[n]];
    }
  }

  lemma {:induction false} LastIsMax<T(!new)>(s: seq<T>, e: T, less: (T, T) -> bool)
    requires StrictWeak(less) && Sorted(s, less) && e in s
    ensures !less(s[|s| - 1], e)
  {
    var i :| 0 <= i < |s| && s[i] == e;
    if i == |s| - 1 {
      assert less(e, e) ==> !less(e, e);
    }
  }

  lemma {:induction false} SameLast<T(!new)>(a: seq<T>, b: seq<T>, less: (T, T) -> bool)
    requires StrictTotal(less) && Sorted(a, less) && Sorted(b, less)
    requires a != [] && b != [] && a[|a| - 1] in b && b[|b| - 1] in a
    ensures a[|a| - 1] == b[|b| - 1]
  {
    LastIsMax(a, b[|b| - 1], less);
    LastIsMax(b, a[|a| - 1], less);
  }

  /** A total order leaves only one way to list a multiset in order. */
  lemma {:induction false} SortedUnique<T(!new)>(a: seq<T>, b: seq<T>, less: (T, T) -> bool)
    requires StrictTotal(less) && Sorted(a, less) && Sorted(b, less)
    requires multiset(a) == multiset(b)
    ensures a == b
    decreases |a|
  {
    assert |multiset(a)| == |a| && |multiset(b)| == |b|;
    if |a| > 0 {
      var n := |a| - 1;
      LastOfEach(a, b);
      SameLast(a, b, less);
      DropLast(a);
      DropLast(b);
      SortedPrefix(a, n, less);
      SortedPrefix(b, n, less);
      SortedUnique(a[..n], b[..n], less);
      Rejoin(a, b);
    }
  }

  lemma {:induction false} LastOfEach<T>(a: seq<T>, b: seq<T>)
    requires a != [] && b != [] && multiset(a) == multiset(b)
    ensures a[|a| - 1] in b && b[|b| - 1] in a
  {
    assert a[|a| - 1] in multiset(b) && b[|b| - 1] in multiset(a);
  }

  lemma {:induction false} SortedPrefix<T>(s: seq<T>, n: nat, less: (T, T) -> bool)
    requires Sorted(s, less) && n <= |s|
    ensures Sorted(s[..n], less)
  {
  }

  lemma {:induction false} Rejoin<T>(a: seq<T>, b: seq<T>)
    requires |a| == |b| > 0 && a[..|a| - 1] == b[..|b| - 1] && a[|a| - 1] == b[|b| - 1]
    ensures a == b
  {
    assert a == a[..|a| - 1] + [a[|a| - 1]] && b == b[..|b| - 1] + [b[|b| - 1]];
  }

  lemma {:induction false} DropLast<T>(s: seq<T>)
    requires s != []
    ensures multiset(s[..|s| - 1]) == multiset(s) - multiset{s[|s| - 1]}
  {
    assert s == s[..|s| - 1] + [s[|s| - 1]];
  }

  /** The order in which elements arrive does not matter. */
  lemma {:induction false} SortPermutation<T(!new)>(a: seq<T>, b: seq<T>, less: (T, T) -> bool)
    requires StrictTotal(less) && multiset(a) == multiset(b)
    ensures Sort(a, less) == Sort(b, less)
  {
    SortCorrect(a, less);
    SortCorrect(b, less);
    SortedUnique(Sort(a, less), Sort(b, less), less);
  }

  /** A list already in order stays as it is. */
  lemma {:induction false} SortFixed<T>(s: seq<T>, less: (T, T) -> bool)
    requires Sorted(s, less)
    ensures Sort(s, less) == s
  {
    if s != [] {
      SortFixed(s[..|s| - 1], less);
    }
  }

  /** The elements that are neither before nor after a, in order. */
  ghost function Ties<T>(s: seq<T>, a: T, less: (T, T) -> bool): seq<T> {
    if s == [] then []
    else
      var x := s[|s| - 1];
      Ties(s[..|s| - 1], a, less) + (if less(a, x) || less(x, a) then [] else [x])
  }

  lemma {:induction false} TiesStep<T>(s: seq<T>, x: T, a: T, less: (T, T) -> bool)
    ensures Ties(s + [x], a, less) == Ties(s, a, less) + if less(a, x) || less(x, a) then [] else [x]
  {
    assert (s + [x])[..|s|] == s;
  }

  lemma {:induction false} InsertStable<T(!new)>(s: seq<T>, x: T, a: T, less: (T, T) -> bool)
    requires StrictWeak(less)
    ensures Ties(Insert(s, x, less), a, less) == Ties(s + [x], a, less)
  {
    if s != [] && less(x, s[|s| - 1]) {
      var front, last := s[..|s| - 1], s[|s| - 1];
      InsertStable(front, x, a, less);
      TiesStep(Insert(front, x, less), last, a, less);
      TiesStep(front, x, a, less);
      TiesStep(s, x, a, less);
    }
  }

  /** Unordered elements keep the order they had. */
  lemma {:induction false} SortStable<T(!new)>(s: seq<T>, a: T, less: (T, T) -> bool)
    requires StrictWeak(less)
    ensures Ties(Sort(s, less), a, less) == Ties(s, a, less)
  {
    if s != [] {
      var n := |s| - 1;
      SortStable(s[..n], a, less);
      InsertStable(Sort(s[..n], less), s[n], a, less);
      TiesStep(Sort(s[..n], less), s[n], a, less);
    }
  }

  // ---- Gathering ----

  /** What f gives for each element, one after the other. */
  function Gather<T, U>(s: seq<T>, f: T -> seq<U>): seq<U> {
    if s == [] then [] else Gather(s[..|s| - 1], f) + f(s[|s| - 1])
  }

  lemma {:induction false} GatherAppend<T, U>(s: seq<T>, x: T, f: T -> seq<U>)
    ensures Gather(s + [x], f) == Gather(s, f) + f(x)
  {
    assert (s + [x])[..|s|] == s;
  }

  lemma {:induction false} GatherConcat<T, U>(a: seq<T>, b: seq<T>, f: T -> seq<U>)
    ensures Gather(a + b, f) == Gather(a, f) + Gather(b, f)
  {
    if b == [] {
      assert a + b == a;
    } else {
      var n := |b| - 1;
      GatherConcat(a, b[..n], f);
      GatherAppend(a + b[..n], b[n], f);
      assert a + b == (a + b[..n]) + [b[n]];
      assert Gather(b, f) == Gather(b[..n], f) + f(b[n]);
      assert Gather(a + b, f) == (Gather(a, f) + Gather(b[..n], f)) + f(b[n]);
    }
  }

  function Without<T>(s: seq<T>, i: nat): seq<T>
    requires i < |s|
  {
    s[..i] + s[i + 1..]
  }

  lemma {:induction false} GatherWithout<T, U>(s: seq<T>, i: nat, f: T -> seq<U>)
    requires i < |s|
    ensures multiset(Gather(s, f)) == multiset(Gather(Without(s, i), f)) + multiset(f(s[i]))
  {
    var n := |s| - 1;
    assert s == s[..n] + [s[n]];
    GatherAppend(s[..n], s[n], f);
    if i == n {
      assert Without(s, i) == s[..n];
    } else {
      GatherWithout(s[..n], i, f);
      assert Without(s, i) == Without(s[..n], i) + [s[n]];
      GatherAppend(Without(s[..n], i), s[n], f);
    }
  }

  lemma {:induction false} WithoutElements<T>(s: seq<T>, i: nat)
    requires i < |s|
    ensures multiset(Without(s, i)) == multiset(s) - multiset{s[i]}
  {
    assert s == s[..i] + [s[i]] + s[i + 1..];
  }

  /** Gathering from a permutation gives a permutation. */
  lemma {:induction false} GatherPermutation<T, U>(a: seq<T>, b: seq<T>, f: T -> seq<U>)
    requires multiset(a) == multiset(b)
    ensures multiset(Gather(a, f)) == multiset(Gather(b, f))
    decreases |a|
  {
    assert |multiset(a)| == |a| && |multiset(b)| == |b|;
    if a != [] {
      var n := |a| - 1;
      var x := a[n];
      var j := Position(b, x);
      WithoutElements(a, n);
      WithoutElements(b, j);
      GatherPermutation(Without(a, n), Without(b, j), f);
      GatherWithout(a, n, f);
      GatherWithout(b, j, f);
    }
  }

  lemma {:induction false} Position<T>(s: seq<T>, x: T) returns (j: nat)
    requires x in multiset(s)
    ensures j < |s| && s[j] == x
  {
    assert x in s;
    j :| 0 <= j < |s| && s[j] == x;
  }

  // ---- The order of strings ----

  /** Go's `<` on strings. */
  predicate StringLess(a: string, b: string) {
    if b == [] then false
    else if a == [] then true
    else a[0] < b[0] || (a[0] == b[0] && StringLess(a[1..], b[1..]))
  }

  lemma {:induction false} StringLessAntisymmetric(a: string, b: string)
    requires StringLess(a, b)
    ensures !StringLess(b, a)
  {
    if a != [] && a[0] == b[0] {
      StringLessAntisymmetric(a[1..], b[1..]);
    }
  }

  lemma {:induction false} StringLessSplits(a: string, b: string, c: string)
    requires StringLess(a, c)
    ensures StringLess(a, b) || StringLess(b, c)
  {
    if a != [] && b != [] && a[0] == c[0] == b[0] {
      StringLessSplits(a[1..], b[1..], c[1..]);
    }
  }

  lemma {:induction false} StringLessTotal(a: string, b: string)
    requires !StringLess(a, b) && !StringLess(b, a)
    ensures a == b
  {
    if a != [] && b != [] {
      StringLessTotal(a[1..], b[1..]);
      assert a == [a[0]] + a[1..] && b == [b[0]] + b[1..];
    }
  }

  /** Strings a and b agree before position i. */
  predicate AgreeTo(a: string, b: string, i: nat) {
    i <= |a| && i <= |b| && a[..i] == b[..i]
  }

  /** The first difference decides, and a proper prefix comes first. */
  predicate DecidedAt(a: string, b: string, i: nat) {
    AgreeTo(a, b, i) && i < |b| && (i == |a| || a[i] < b[i])
  }

  lemma {:induction false} AgreeFirst(a: string, b: string, i: nat)
    requires AgreeTo(a, b, i) && i > 0
    ensures a[0] == b[0]
  {
    assert a[..i][0] == a[0] && b[..i][0] == b[0];
  }

  lemma {:induction false} StringLessMeaning(a: string, b: string)
    ensures StringLess(a, b) <==> exists i: nat :: DecidedAt(a, b, i)
  {
    if b == [] {
    } else if a == [] || a[0] < b[0] {
      assert DecidedAt(a, b, 0);
    } else if a[0] == b[0] {
      StringLessMeaning(a[1..], b[1..]);
      if i: nat :| DecidedAt(a[1..], b[1..], i) {
        assert a[..i + 1] == [a[0]] + a[1..][..i] && b[..i + 1] == [b[0]] + b[1..][..i];
        assert DecidedAt(a, b, i + 1);
      }
      if i: nat :| DecidedAt(a, b, i) {
        assert i > 0;
        assert a[1..][..i - 1] == a[..i][1..] && b[1..][..i - 1] == b[..i][1..];
        assert DecidedAt(a[1..], b[1..], i - 1);
      }
    } else {
      forall i: nat ensures !DecidedAt(a, b, i) {
        if i > 0 && AgreeTo(a, b, i) {
          AgreeFirst(a, b, i);
        }
      }
    }
  }

  lemma {:induction false} StringLessIsStrictTotal()
    ensures StrictTotal(StringLess)
  {
    forall a, b | StringLess(a, b) ensures !StringLess(b, a) {
      StringLessAntisymmetric(a, b);
    }
    forall a, b, c | StringLess(a, c) ensures StringLess(a, b) || StringLess(b, c) {
      StringLessSplits(a, b, c);
    }
    forall a, b | !StringLess(a, b) && !StringLess(b, a) ensures a == b {
      StringLessTotal(a, b);
    }
  }
}
