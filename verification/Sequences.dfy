/** Mapping a function over a sequence, and what a permutation of the input does to the result. */
module Sequences {

  function Map<A, B>(f: A -> B, s: seq<A>): (r: seq<B>)
    ensures |r| == |s|
    ensures forall i | 0 <= i < |s| :: r[i] == f(s[i])
  {
    seq(|s|, i requires 0 <= i < |s| => f(s[i]))
  }

  lemma MapConcat<A, B>(f: A -> B, a: seq<A>, b: seq<A>)
    ensures Map(f, a + b) == Map(f, a) + Map(f, b)
  {
  }

  lemma MultisetWithout<A>(s: seq<A>, k: nat)
    requires k < |s|
    ensures multiset(s) == multiset{s[k]} + multiset(s[..k] + s[k + 1..])
  {
    assert s == s[..k] + ([s[k]] + s[k + 1..]);
  }

  lemma MultisetTail<A>(s: seq<A>)
    requires s != []
    ensures multiset(s[1..]) == multiset(s) - multiset{s[0]}
  {
    assert multiset(s) == multiset{s[0]} + multiset(s[1..]) by {
      assert s == [s[0]] + s[1..];
    }
  }

  /** What a permutation starts with occurs in the other sequence; without it both still agree. */
  lemma RemoveOne<A>(a: seq<A>, b: seq<A>) returns (k: nat)
    requires multiset(a) == multiset(b) && a != []
    ensures k < |b| && b[k] == a[0] && multiset(a[1..]) == multiset(b[..k] + b[k + 1..])
  {
    assert a[0] in multiset(b);
    k :| 0 <= k < |b| && b[k] == a[0];
    MultisetTail(a);
    MultisetWithout(b, k);
  }

  lemma MapWithout<A, B>(f: A -> B, b: seq<A>, k: nat)
    requires k < |b|
    ensures multiset(Map(f, b)) == multiset{f(b[k])} + multiset(Map(f, b[..k] + b[k + 1..]))
  {
    assert Map(f, b) == Map(f, b[..k]) + ([f(b[k])] + Map(f, b[k + 1..]));
    MapConcat(f, b[..k], b[k + 1..]);
  }

  /** Permuting the input permutes the output. */
  lemma {:induction false} MapPermutes<A(!new), B>(f: A -> B, a: seq<A>, b: seq<A>)
    requires multiset(a) == multiset(b)
    ensures multiset(Map(f, a)) == multiset(Map(f, b))
    decreases |a|
  {
    if a == [] {
      assert |multiset(b)| == 0;
    } else {
      var k := RemoveOne(a, b);
      MapPermutes(f, a[1..], b[..k] + b[k + 1..]);
      MapWithout(f, b, k);
      assert Map(f, a) == [f(a[0])] + Map(f, a[1..]);
    }
  }

  function Filter<A>(p: A -> bool, s: seq<A>): seq<A> {
    if s == [] then []
    else Filter(p, s[..|s| - 1]) + (if p(s[|s| - 1]) then [s[|s| - 1]] else [])
  }

  lemma FilterStep<A>(p: A -> bool, s: seq<A>, n: nat)
    requires n < |s|
    ensures Filter(p, s[..n + 1]) == Filter(p, s[..n]) + (if p(s[n]) then [s[n]] else [])
  {
    assert s[..n + 1][..n] == s[..n];
  }

  lemma {:induction false} FilterConcat<A>(p: A -> bool, a: seq<A>, b: seq<A>)
    ensures Filter(p, a + b) == Filter(p, a) + Filter(p, b)
  {
    if b == [] {
      assert a + b == a;
    } else {
      FilterConcat(p, a, b[..|b| - 1]);
      assert (a + b)[..|a + b| - 1] == a + b[..|b| - 1];
    }
  }

  lemma {:induction false} FilterIs<A>(p: A -> bool, s: seq<A>)
    ensures forall x :: x in Filter(p, s) <==> x in s && p(x)
  {
    if s == [] {
    } else {
      FilterIs(p, s[..|s| - 1]);
      assert s == s[..|s| - 1] + [s[|s| - 1]];
    }
  }

  lemma {:induction false} FilteredFrom<A>(p: A -> bool, s: seq<A>, i: nat)
    requires i < |Filter(p, s)|
    ensures Filter(p, s)[i] in s && p(Filter(p, s)[i])
  {
    if s != [] && i < |Filter(p, s[..|s| - 1])| {
      FilteredFrom(p, s[..|s| - 1], i);
    }
  }

  /** How often a value survives a filter depends only on how often it occurred. */
  lemma {:induction false} FilterCounts<A>(p: A -> bool, s: seq<A>, x: A)
    ensures multiset(Filter(p, s))[x] == if p(x) then multiset(s)[x] else 0
  {
    if s == [] {
    } else {
      FilterCounts(p, s[..|s| - 1], x);
      assert s == s[..|s| - 1] + [s[|s| - 1]];
    }
  }

  lemma FilterPermutes<A(!new)>(p: A -> bool, a: seq<A>, b: seq<A>)
    requires multiset(a) == multiset(b)
    ensures multiset(Filter(p, a)) == multiset(Filter(p, b))
  {
    forall x ensures multiset(Filter(p, a))[x] == multiset(Filter(p, b))[x] {
      FilterCounts(p, a, x);
      FilterCounts(p, b, x);
    }
  }

  function Members<A>(s: seq<A>): set<A> {
    set x | x in s
  }

  lemma MembersStep<A>(front: seq<A>, last: A)
    ensures |Members(front + [last])| == |Members(front)| + if last in front then 0 else 1
  {
    if last in front {
      assert Members(front + [last]) == Members(front);
    } else {
      assert Members(front + [last]) == Members(front) + {last};
    }
  }

  lemma DistinctStep<A>(front: seq<A>, last: A)
    ensures Distinct(front + [last]) <==> Distinct(front) && last !in front
  {
    var s := front + [last];
    if Distinct(s) {
      forall i, j | 0 <= i < j < |front| ensures front[i] != front[j] {
        assert s[i] != s[j];
      }
      forall i | 0 <= i < |front| ensures front[i] != last {
        assert s[i] != s[|front|];
      }
    }
  }

  ghost predicate Distinct<A>(s: seq<A>) {
    forall i, j | 0 <= i < j < |s| :: s[i] != s[j]
  }

  /** `len(s) == len(set(s))` holds exactly when nothing repeats. */
  lemma {:induction false} SizesTellRepetition<A>(s: seq<A>)
    ensures |Members(s)| <= |s|
    ensures |Members(s)| == |s| <==> Distinct(s)
  {
    if s == [] {
    } else {
      var front, last := s[..|s| - 1], s[|s| - 1];
      SizesTellRepetition(front);
      assert s == front + [last];
      MembersStep(front, last);
      DistinctStep(front, last);
    }
  }

  lemma HasMember<A>(s: seq<A>)
    ensures s == [] || exists x :: x in s
  {
    if s != [] {
      assert s[0] in s;
    }
  }

  /** `dict.fromkeys(s)`: the members in the order of their first occurrence. */
  function Unique<A(==)>(s: seq<A>): seq<A> {
    if s == [] then []
    else
      var front, last := Unique(s[..|s| - 1]), s[|s| - 1];
      if last in front then front else front + [last]
  }

  lemma {:induction false} UniqueIs<A>(s: seq<A>)
    ensures forall x :: x in Unique(s) <==> x in s
    ensures forall i, j | 0 <= i < j < |Unique(s)| :: Unique(s)[i] != Unique(s)[j]
  {
    if s == [] {
    } else {
      UniqueIs(s[..|s| - 1]);
      assert s == s[..|s| - 1] + [s[|s| - 1]];
    }
  }

  /** Where a value first occurs; the length of the sequence when it does not. */
  function FirstAt<A(==)>(s: seq<A>, x: A): (i: nat)
    ensures i <= |s|
    ensures i < |s| ==> s[i] == x
    ensures forall k | 0 <= k < i :: s[k] != x
  {
    if s == [] || s[0] == x then 0
    else
      var i := 1 + FirstAt(s[1..], x);
      assert forall k | 1 <= k < |s| :: s[k] == s[1..][k - 1];
      i
  }

  /** A selection of the unique members keeps the order in which they first occur. */
  ghost predicate InOrderOf<A>(picked: seq<A>, s: seq<A>) {
    forall i, j | 0 <= i < j < |picked| :: FirstAt(s, picked[i]) < FirstAt(s, picked[j])
  }

  lemma FirstAtGrows<A>(s: seq<A>, last: A, x: A)
    ensures x in s ==> FirstAt(s + [last], x) == FirstAt(s, x) < |s|
    ensures x !in s ==> FirstAt(s + [last], x) >= |s|
  {
    var longer := s + [last];
    assert forall k | 0 <= k < |s| :: longer[k] == s[k];
    if x in s {
      var k :| 0 <= k < |s| && s[k] == x;
      assert longer[FirstAt(s, x)] == x;
    }
  }

  lemma {:induction false} FilteredUniqueKeepsOrder<A>(p: A -> bool, s: seq<A>)
    ensures InOrderOf(Filter(p, Unique(s)), s)
  {
    if s == [] {
    } else {
      var front, last := s[..|s| - 1], s[|s| - 1];
      FilteredUniqueKeepsOrder(p, front);
      UniqueIs(front);
      var picked := Filter(p, Unique(front));
      assert s == front + [last];
      forall i | 0 <= i < |picked|
        ensures picked[i] in front && FirstAt(s, picked[i]) == FirstAt(front, picked[i]) < |front|
      {
        FilteredFrom(p, Unique(front), i);
        FirstAtGrows(front, last, picked[i]);
      }
      if last !in front {
        FirstAtGrows(front, last, last);
        assert (Unique(front) + [last])[..|Unique(front)|] == Unique(front);
      }
    }
  }
}
