/** Grouping by key the way a Python dict of lists does: keys in first-seen order, values in arrival order. */
module Grouping {
  import opened Sequences

  datatype Bucket<K, V> = Bucket(key: K, items: seq<V>)

  function BucketIndex<K(==), V>(buckets: seq<Bucket<K, V>>, key: K): (i: nat)
    ensures i <= |buckets|
    ensures i < |buckets| ==> buckets[i].key == key
    ensures i == |buckets| ==> forall k | 0 <= k < |buckets| :: buckets[k].key != key
  {
    FirstAt(Map((b: Bucket<K, V>) => b.key, buckets), key)
  }

  /** `groups.setdefault(key, []).append(v)`. */
  function Add<K(==), V>(buckets: seq<Bucket<K, V>>, key: K, v: V): seq<Bucket<K, V>> {
    var i := BucketIndex(buckets, key);
    if i < |buckets| then buckets[i := Bucket(key, buckets[i].items + [v])] else buckets + [Bucket(key, [v])]
  }

  function GroupBy<K(==), V>(keyOf: V -> K, vs: seq<V>): seq<Bucket<K, V>> {
    if vs == [] then [] else Add(GroupBy(keyOf, vs[..|vs| - 1]), keyOf(vs[|vs| - 1]), vs[|vs| - 1])
  }

  method Group<K(==), V>(keyOf: V -> K, vs: seq<V>) returns (buckets: seq<Bucket<K, V>>)
    ensures buckets == GroupBy(keyOf, vs)
  {
    buckets := [];
    for n := 0 to |vs|
      invariant buckets == GroupBy(keyOf, vs[..n])
    {
      assert vs[..n + 1][..n] == vs[..n];
      buckets := Add(buckets, keyOf(vs[n]), vs[n]);
    }
    assert vs[..|vs|] == vs;
  }

  /** The values with a key, in order. */
  function Select<K(==), V>(keyOf: V -> K, vs: seq<V>, key: K): seq<V> {
    if vs == [] then []
    else Select(keyOf, vs[..|vs| - 1], key) + (if keyOf(vs[|vs| - 1]) == key then [vs[|vs| - 1]] else [])
  }

  ghost predicate DistinctKeys<K, V>(buckets: seq<Bucket<K, V>>) {
    forall i, j | 0 <= i < j < |buckets| :: buckets[i].key != buckets[j].key
  }

  /** Adding a value keeps the keys distinct and makes its key, and no other, a key of the buckets. */
  lemma AddKeys<K, V>(buckets: seq<Bucket<K, V>>, key: K, v: V)
    requires DistinctKeys(buckets)
    ensures DistinctKeys(Add(buckets, key, v))
    ensures forall k ::
              BucketIndex(Add(buckets, key, v), k) == |Add(buckets, key, v)| <==>
                k != key && BucketIndex(buckets, k) == |buckets|
  {
    var at, after := BucketIndex(buckets, key), Add(buckets, key, v);
    forall k
      ensures BucketIndex(after, k) == |after| <==> k != key && BucketIndex(buckets, k) == |buckets|
    {
      if k == key {
        assert after[at].key == k;
      } else if BucketIndex(buckets, k) < |buckets| {
        assert after[BucketIndex(buckets, k)].key == k;
      }
    }
  }

  /** Every bucket holds exactly the values of its key, in order; every value has its bucket; keys are distinct. */
  lemma {:induction false} GroupByIs<K, V>(keyOf: V -> K, vs: seq<V>)
    ensures DistinctKeys(GroupBy(keyOf, vs))
    ensures forall i | 0 <= i < |GroupBy(keyOf, vs)| ::
              GroupBy(keyOf, vs)[i].items == Select(keyOf, vs, GroupBy(keyOf, vs)[i].key) != []
    ensures forall key :: BucketIndex(GroupBy(keyOf, vs), key) == |GroupBy(keyOf, vs)| <==> Select(keyOf, vs, key) == []
  {
    if vs == [] {
    } else {
      var front, v := vs[..|vs| - 1], vs[|vs| - 1];
      GroupByIs(keyOf, front);
      var before, after := GroupBy(keyOf, front), GroupBy(keyOf, vs);
      var at := BucketIndex(before, keyOf(v));
      AddKeys(before, keyOf(v), v);
      forall i | 0 <= i < |after|
        ensures after[i].items == Select(keyOf, vs, after[i].key) != []
      {
        if i == at {
          assert at < |before| ==> before[at].items == Select(keyOf, front, keyOf(v));
        } else {
          assert after[i] == before[i];
        }
      }
    }
  }

  lemma {:induction false} SelectMembers<K, V>(keyOf: V -> K, vs: seq<V>, key: K)
    ensures forall v :: v in Select(keyOf, vs, key) <==> v in vs && keyOf(v) == key
  {
    if vs == [] {
    } else {
      SelectMembers(keyOf, vs[..|vs| - 1], key);
      assert vs == vs[..|vs| - 1] + [vs[|vs| - 1]];
    }
  }

  lemma BucketMembers<K, V>(keyOf: V -> K, vs: seq<V>, n: nat)
    requires n < |GroupBy(keyOf, vs)|
    ensures GroupBy(keyOf, vs)[n].items != []
    ensures forall v :: v in GroupBy(keyOf, vs)[n].items <==> v in vs && keyOf(v) == GroupBy(keyOf, vs)[n].key
  {
    GroupByIs(keyOf, vs);
    SelectMembers(keyOf, vs, GroupBy(keyOf, vs)[n].key);
  }

  /** Every value has a bucket. */
  lemma BucketFor<K, V>(keyOf: V -> K, vs: seq<V>, v: V) returns (n: nat)
    requires v in vs
    ensures n < |GroupBy(keyOf, vs)| && GroupBy(keyOf, vs)[n].key == keyOf(v)
  {
    GroupByIs(keyOf, vs);
    SelectMembers(keyOf, vs, keyOf(v));
    assert v in Select(keyOf, vs, keyOf(v));
    n := BucketIndex(GroupBy(keyOf, vs), keyOf(v));
  }

  /** Membership form: a bucket's values are the values of its key, and every value is in some bucket. */
  lemma GroupMembers<K, V>(keyOf: V -> K, vs: seq<V>)
    ensures DistinctKeys(GroupBy(keyOf, vs))
    ensures forall i, v | 0 <= i < |GroupBy(keyOf, vs)| ::
              v in GroupBy(keyOf, vs)[i].items <==> v in vs && keyOf(v) == GroupBy(keyOf, vs)[i].key
    ensures forall i | 0 <= i < |GroupBy(keyOf, vs)| :: GroupBy(keyOf, vs)[i].items != []
    ensures forall v | v in vs :: exists i :: 0 <= i < |GroupBy(keyOf, vs)| && GroupBy(keyOf, vs)[i].key == keyOf(v)
  {
    var buckets := GroupBy(keyOf, vs);
    assert DistinctKeys(buckets) by {
      GroupByIs(keyOf, vs);
    }
    forall i | 0 <= i < |buckets|
      ensures buckets[i].items != []
      ensures forall v :: v in buckets[i].items <==> v in vs && keyOf(v) == buckets[i].key
    {
      BucketMembers(keyOf, vs, i);
    }
    forall v | v in vs
      ensures exists i :: 0 <= i < |buckets| && buckets[i].key == keyOf(v)
    {
      var n := BucketFor(keyOf, vs, v);
    }
  }

  /** What a bucket holds was grouped under its key. */
  lemma ItemOf<K, V>(keyOf: V -> K, vs: seq<V>, n: nat, v: V)
    requires n < |GroupBy(keyOf, vs)| && v in GroupBy(keyOf, vs)[n].items
    ensures v in vs && keyOf(v) == GroupBy(keyOf, vs)[n].key
  {
    BucketMembers(keyOf, vs, n);
  }

  /** Where a value went. */
  lemma BucketOf<K, V>(keyOf: V -> K, vs: seq<V>, v: V) returns (n: nat)
    requires v in vs
    ensures n < |GroupBy(keyOf, vs)| && GroupBy(keyOf, vs)[n].key == keyOf(v) && v in GroupBy(keyOf, vs)[n].items
  {
    n := BucketFor(keyOf, vs, v);
    BucketMembers(keyOf, vs, n);
  }

  /** No bucket is empty. */
  lemma SomeItem<K, V>(keyOf: V -> K, vs: seq<V>, n: nat) returns (v: V)
    requires n < |GroupBy(keyOf, vs)|
    ensures v in GroupBy(keyOf, vs)[n].items && v in vs && keyOf(v) == GroupBy(keyOf, vs)[n].key
  {
    BucketMembers(keyOf, vs, n);
    v := GroupBy(keyOf, vs)[n].items[0];
    ItemOf(keyOf, vs, n, v);
  }

  function Flat<K, V>(buckets: seq<Bucket<K, V>>): seq<V> {
    if buckets == [] then [] else Flat(buckets[..|buckets| - 1]) + buckets[|buckets| - 1].items
  }

  lemma FlatLast<K, V>(buckets: seq<Bucket<K, V>>, front: seq<Bucket<K, V>>, last: Bucket<K, V>)
    requires buckets == front + [last]
    ensures multiset(Flat(buckets)) == multiset(Flat(front)) + multiset(last.items)
  {
    assert buckets[..|buckets| - 1] == front && buckets[|buckets| - 1] == last;
    assert Flat(buckets) == Flat(front) + last.items;
  }

  lemma {:induction false} FlatUpdate<K, V>(buckets: seq<Bucket<K, V>>, i: nat, key: K, v: V)
    requires i < |buckets|
    ensures multiset(Flat(buckets[i := Bucket(key, buckets[i].items + [v])])) == multiset(Flat(buckets)) + multiset{v}
  {
    var front, last := buckets[..|buckets| - 1], buckets[|buckets| - 1];
    var changed := Bucket(key, buckets[i].items + [v]);
    FlatLast(buckets, front, last);
    if i == |front| {
      assert buckets[i := changed] == front + [changed];
      FlatLast(buckets[i := changed], front, changed);
    } else {
      FlatUpdate(front, i, key, v);
      assert buckets[i := changed] == front[i := changed] + [last];
      FlatLast(buckets[i := changed], front[i := changed], last);
    }
  }

  lemma AddKeeps<K, V>(buckets: seq<Bucket<K, V>>, key: K, v: V)
    ensures multiset(Flat(Add(buckets, key, v))) == multiset(Flat(buckets)) + multiset{v}
  {
    var i := BucketIndex(buckets, key);
    if i < |buckets| {
      FlatUpdate(buckets, i, key, v);
    } else {
      assert (buckets + [Bucket(key, [v])])[..|buckets|] == buckets;
    }
  }

  lemma GroupedStep<K, V>(keyOf: V -> K, front: seq<V>, v: V)
    ensures multiset(Flat(GroupBy(keyOf, front + [v]))) == multiset(Flat(GroupBy(keyOf, front))) + multiset{v}
  {
    assert (front + [v])[..|front|] == front;
    AddKeeps(GroupBy(keyOf, front), keyOf(v), v);
  }

  /** Grouping loses and duplicates nothing. */
  lemma {:induction false} GroupByConserves<K, V>(keyOf: V -> K, vs: seq<V>)
    ensures multiset(Flat(GroupBy(keyOf, vs))) == multiset(vs)
  {
    if vs == [] {
    } else {
      var front, v := vs[..|vs| - 1], vs[|vs| - 1];
      assert vs == front + [v];
      calc {
        multiset(Flat(GroupBy(keyOf, vs)));
        { GroupedStep(keyOf, front, v); }
        multiset(Flat(GroupBy(keyOf, front))) + multiset{v};
        { GroupByConserves(keyOf, front); }
        multiset(front) + multiset{v};
        multiset(vs);
      }
    }
  }
}
