/** The order Python gives strings and tuples, and sorting by such an order. */
module Lexicographic {
  import opened Sequences

  ghost predicate StrictTotalOrder<T(!new)>(less: (T, T) -> bool) {
    && (forall a :: !less(a, a))
    && (forall a, b, c :: less(a, b) && less(b, c) ==> less(a, c))
    && (forall a, b :: a == b || less(a, b) || less(b, a))
  }

  /** First difference decides; a proper prefix comes first. */
  predicate Precedes<T(==)>(less: (T, T) -> bool, a: seq<T>, b: seq<T>) {
    if b == [] then false
    else if a == [] then true
    else if a[0] == b[0] then Precedes(less, a[1..], b[1..])
    else less(a[0], b[0])
  }

  lemma {:induction false} PrecedesIrreflexive<T(!new)>(less: (T, T) -> bool, a: seq<T>)
    ensures !Precedes(less, a, a)
  {
    if a == [] {
    } else {
      PrecedesIrreflexive(less, a[1..]);
    }
  }

  lemma {:induction false} PrecedesTransitive<T(!new)>(less: (T, T) -> bool, a: seq<T>, b: seq<T>, c: seq<T>)
    requires StrictTotalOrder(less)
    requires Precedes(less, a, b) && Precedes(less, b, c)
    ensures Precedes(less, a, c)
  {
    if a != [] && a[0] == b[0] && b[0] == c[0] {
      PrecedesTransitive(less, a[1..], b[1..], c[1..]);
    }
  }

  lemma {:induction false} PrecedesTotal<T(!new)>(less: (T, T) -> bool, a: seq<T>, b: seq<T>)
    requires StrictTotalOrder(less)
    ensures a == b || Precedes(less, a, b) || Precedes(less, b, a)
  {
    if a != [] && b != [] && a[0] == b[0] {
      PrecedesTotal(less, a[1..], b[1..]);
      assert a == [a[0]] + a[1..] && b == [b[0]] + b[1..];
    }
  }

  /** Ordering elements strictly and totally orders sequences of them strictly and totally. */
  lemma SequencesAreOrdered<T(!new)>(less: (T, T) -> bool, lifted: (seq<T>, seq<T>) -> bool)
    requires StrictTotalOrder(less)
    requires forall a, b :: lifted(a, b) == Precedes(less, a, b)
    ensures StrictTotalOrder(lifted)
  {
    forall a ensures !lifted(a, a) {
      PrecedesIrreflexive(less, a);
    }
    forall a, b, c | lifted(a, b) && lifted(b, c) ensures lifted(a, c) {
      PrecedesTransitive(less, a, b, c);
    }
    forall a, b ensures a == b || lifted(a, b) || lifted(b, a) {
      PrecedesTotal(less, a, b);
    }
  }

  predicate CharLess(a: char, b: char) {
    a < b
  }

  predicate StringLess(a: string, b: string) {
    Precedes(CharLess, a, b)
  }

  /** After what the two share, the first ends or has the smaller element. */
  ghost predicate FirstDifference<T>(less: (T, T) -> bool, a: seq<T>, b: seq<T>) {
    exists k :: 0 <= k < |b| && k <= |a| && a[..k] == b[..k] && (k == |a| || (a[k] != b[k] && less(a[k], b[k])))
  }

  lemma SameStart<T>(a: seq<T>, b: seq<T>, k: nat)
    requires 0 < k <= |a| && k <= |b| && a[..k] == b[..k]
    ensures a[0] == b[0]
  {
    assert a[..k][0] == b[..k][0];
  }

  lemma {:induction false} PrecedesAtFirstDifference<T>(less: (T, T) -> bool, a: seq<T>, b: seq<T>)
    ensures Precedes(less, a, b) <==> FirstDifference(less, a, b)
  {
    if a == [] || b == [] || a[0] != b[0] {
      if b != [] && Precedes(less, a, b) {
        assert a[..0] == b[..0];
      }
      if k :| 0 < k < |b| && k <= |a| && a[..k] == b[..k] {
        SameStart(a, b, k);
      }
    } else {
      var u, w := a[1..], b[1..];
      PrecedesAtFirstDifference(less, u, w);
      if k :| 0 <= k < |w| && k <= |u| && u[..k] == w[..k] && (k == |u| || (u[k] != w[k] && less(u[k], w[k]))) {
        assert a[..k + 1] == [a[0]] + u[..k] && b[..k + 1] == [b[0]] + w[..k];
        assert a[..k + 1] == b[..k + 1];
      }
      if k :| 0 <= k < |b| && k <= |a| && a[..k] == b[..k] && (k == |a| || (a[k] != b[k] && less(a[k], b[k]))) {
        assert u[..k - 1] == a[..k][1..] && w[..k - 1] == b[..k][1..];
      }
    }
  }

  /** After what two texts share, the first ends or has the smaller character. */
  ghost predicate Before(a: string, b: string) {
    exists k :: 0 <= k < |b| && k <= |a| && a[..k] == b[..k] && (k == |a| || a[k] < b[k])
  }

  lemma StringLessIsBefore(a: string, b: string)
    ensures StringLess(a, b) <==> Before(a, b)
  {
    PrecedesAtFirstDifference(CharLess, a, b);
    if k :| 0 <= k < |b| && k <= |a| && a[..k] == b[..k] && (k == |a| || a[k] < b[k]) {
      assert k == |a| || (a[k] != b[k] && CharLess(a[k], b[k]));
    }
  }

  predicate NatLess(a: nat, b: nat) {
    a < b
  }

  predicate NatsLess(a: seq<nat>, b: seq<nat>) {
    Precedes(NatLess, a, b)
  }

  lemma StringsAreOrdered()
    ensures StrictTotalOrder(StringLess)
  {
    SequencesAreOrdered(CharLess, StringLess);
  }

  lemma NatsAreOrdered()
    ensures StrictTotalOrder(NatsLess)
  {
    SequencesAreOrdered(NatLess, NatsLess);
  }

  // ---- sorting a collection without repetition ----

  predicate StrictlySorted<T(!new)>(less: (T, T) -> bool, s: seq<T>) {
    forall i, j | 0 <= i < j < |s| :: less(s[i], s[j])
  }

  function Insert<T(==)>(less: (T, T) -> bool, x: T, s: seq<T>): seq<T> {
    if s == [] then [x]
    else if x == s[0] then s
    else if less(x, s[0]) then [x] + s
    else [s[0]] + Insert(less, x, s[1..])
  }

  /** `sorted(set(s))`. */
  function SortedSet<T(==)>(less: (T, T) -> bool, s: seq<T>): seq<T> {
    if s == [] then [] else Insert(less, s[0], SortedSet(less, s[1..]))
  }

  lemma {:induction false} InsertSorts<T(!new)>(less: (T, T) -> bool, x: T, s: seq<T>)
    requires StrictTotalOrder(less) && StrictlySorted(less, s)
    ensures StrictlySorted(less, Insert(less, x, s))
    ensures forall y :: y in Insert(less, x, s) <==> y == x || y in s
  {
    if s != [] && x != s[0] && !less(x, s[0]) {
      InsertSorts(less, x, s[1..]);
      var rest := Insert(less, x, s[1..]);
      forall j | 0 <= j < |rest| ensures less(s[0], rest[j]) {
        assert rest[j] in rest;
        if rest[j] != x {
          var k :| 0 <= k < |s[1..]| && s[1..][k] == rest[j];
          assert s[k + 1] == rest[j];
        }
      }
      forall i, j | 0 <= i < j < |rest| + 1
        ensures less(([s[0]] + rest)[i], ([s[0]] + rest)[j])
      {
        assert i > 0 ==> less(rest[i - 1], rest[j - 1]);
      }
      assert s == [s[0]] + s[1..];
    }
  }

  /** The result is strictly increasing and has exactly the members of the input. */
  lemma {:induction false} SortedSetSorts<T(!new)>(less: (T, T) -> bool, s: seq<T>)
    requires StrictTotalOrder(less)
    ensures StrictlySorted(less, SortedSet(less, s))
    ensures forall y :: y in SortedSet(less, s) <==> y in s
  {
    if s == [] {
    } else {
      SortedSetSorts(less, s[1..]);
      InsertSorts(less, s[0], SortedSet(less, s[1..]));
      assert s == [s[0]] + s[1..];
    }
  }

  // ---- sorting with repetition ----

  function InsertKeeping<T>(less: (T, T) -> bool, x: T, s: seq<T>): seq<T> {
    if s == [] then [x]
    else if less(s[0], x) then [s[0]] + InsertKeeping(less, x, s[1..])
    else [x] + s
  }

  /** `sorted(s)`. */
  function Sorted<T>(less: (T, T) -> bool, s: seq<T>): seq<T> {
    if s == [] then [] else InsertKeeping(less, s[0], Sorted(less, s[1..]))
  }

  lemma {:induction false} InsertKeepingIs<T>(less: (T, T) -> bool, x: T, s: seq<T>)
    ensures multiset(InsertKeeping(less, x, s)) == multiset{x} + multiset(s)
  {
    if s != [] && less(s[0], x) {
      InsertKeepingIs(less, x, s[1..]);
      assert s == [s[0]] + s[1..];
    }
  }

  /** Sorting permutes. */
  lemma {:induction false} SortedPermutes<T>(less: (T, T) -> bool, s: seq<T>)
    ensures multiset(Sorted(less, s)) == multiset(s)
  {
    if s == [] {
    } else {
      SortedPermutes(less, s[1..]);
      InsertKeepingIs(less, s[0], Sorted(less, s[1..]));
      assert s == [s[0]] + s[1..];
    }
  }

  /** No element follows one it should precede. */
  predicate Ordered<T(!new)>(less: (T, T) -> bool, s: seq<T>) {
    forall i, j | 0 <= i < j < |s| :: !less(s[j], s[i])
  }

  /** A strict weak order is enough to sort by. */
  ghost predicate StrictWeakOrder<T(!new)>(less: (T, T) -> bool) {
    && (forall a :: !less(a, a))
    && (forall a, b, c :: less(a, b) && less(b, c) ==> less(a, c))
    && (forall a, b, c :: less(a, c) ==> less(a, b) || less(b, c))
  }

  lemma {:induction false} InsertKeepingOrders<T(!new)>(less: (T, T) -> bool, x: T, s: seq<T>)
    requires StrictWeakOrder(less) && Ordered(less, s)
    ensures Ordered(less, InsertKeeping(less, x, s))
  {
    if s != [] && less(s[0], x) {
      InsertKeepingOrders(less, x, s[1..]);
      var rest := InsertKeeping(less, x, s[1..]);
      InsertKeepingIs(less, x, s[1..]);
      forall j | 0 <= j < |rest| ensures !less(rest[j], s[0]) {
        assert rest[j] in multiset(rest);
        if rest[j] != x {
          var k :| 0 <= k < |s[1..]| && s[1..][k] == rest[j];
          assert s[k + 1] == rest[j];
        }
      }
    } else if s != [] {
      forall j | 0 <= j < |s| ensures !less(s[j], x) {
        assert j > 0 ==> !less(s[j], s[0]);
      }
    }
  }

  lemma {:induction false} SortedOrders<T(!new)>(less: (T, T) -> bool, s: seq<T>)
    requires StrictWeakOrder(less)
    ensures Ordered(less, Sorted(less, s))
  {
    if s == [] {
    } else {
      SortedOrders(less, s[1..]);
      InsertKeepingOrders(less, s[0], Sorted(less, s[1..]));
    }
  }

  /** The values picked by `p` tie with each other. */
  ghost predicate Tied<T(!new)>(less: (T, T) -> bool, p: T -> bool) {
    forall a, b | p(a) && p(b) :: !less(a, b)
  }

  lemma {:induction false} InsertKeepsTies<T(!new)>(less: (T, T) -> bool, p: T -> bool, x: T, s: seq<T>)
    requires Tied(less, p)
    ensures Filter(p, InsertKeeping(less, x, s)) == Filter(p, [x]) + Filter(p, s)
  {
    if s != [] && less(s[0], x) {
      InsertKeepsTies(less, p, x, s[1..]);
      FilterConcat(p, [s[0]], InsertKeeping(less, x, s[1..]));
      FilterConcat(p, [s[0]], s[1..]);
      assert s == [s[0]] + s[1..];
      assert Filter(p, [s[0]]) == [] || Filter(p, [x]) == [];
    } else {
      FilterConcat(p, [x], s);
    }
  }

  /** Sorting keeps tied values in the order they had. */
  lemma {:induction false} SortedIsStable<T(!new)>(less: (T, T) -> bool, p: T -> bool, s: seq<T>)
    requires Tied(less, p)
    ensures Filter(p, Sorted(less, s)) == Filter(p, s)
  {
    if s == [] {
    } else {
      SortedIsStable(less, p, s[1..]);
      InsertKeepsTies(less, p, s[0], Sorted(less, s[1..]));
      FilterConcat(p, [s[0]], s[1..]);
      assert s == [s[0]] + s[1..];
    }
  }

  lemma SameFirst<T(!new)>(less: (T, T) -> bool, a: seq<T>, b: seq<T>)
    requires StrictTotalOrder(less) && Ordered(less, a) && Ordered(less, b)
    requires multiset(a) == multiset(b) && a != [] && b != []
    ensures a[0] == b[0]
  {
    assert a[0] in multiset(b) && b[0] in multiset(a);
    var i :| 0 <= i < |b| && b[i] == a[0];
    var j :| 0 <= j < |a| && a[j] == b[0];
    assert i > 0 ==> !less(b[i], b[0]);
    assert j > 0 ==> !less(a[j], a[0]);
  }

  lemma SameRest<T>(a: seq<T>, b: seq<T>)
    requires multiset(a) == multiset(b) && a != [] && b != [] && a[0] == b[0]
    ensures multiset(a[1..]) == multiset(b[1..])
  {
    MultisetTail(a);
    MultisetTail(b);
  }

  lemma {:induction false} OrderedIsUnique<T(!new)>(less: (T, T) -> bool, a: seq<T>, b: seq<T>)
    requires StrictTotalOrder(less) && Ordered(less, a) && Ordered(less, b) && multiset(a) == multiset(b)
    ensures a == b
  {
    assert |multiset(a)| == |a| && |multiset(b)| == |b|;
    if a == [] {
    } else {
      SameFirst(less, a, b);
      SameRest(a, b);
      OrderedIsUnique(less, a[1..], b[1..]);
      assert a == [a[0]] + a[1..] && b == [b[0]] + b[1..];
    }
  }

  /** Under a strict total order, sorting forgets the order of the input. */
  lemma SortingForgetsOrder<T(!new)>(less: (T, T) -> bool, a: seq<T>, b: seq<T>)
    requires StrictTotalOrder(less) && multiset(a) == multiset(b)
    ensures Sorted(less, a) == Sorted(less, b)
  {
    SortedPermutes(less, a);
    SortedPermutes(less, b);
    SortedOrders(less, a);
    SortedOrders(less, b);
    OrderedIsUnique(less, Sorted(less, a), Sorted(less, b));
  }
}
