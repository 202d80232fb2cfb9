/** The geometry partition without its loop: who sits with whom, stated item by item. */
module GeometrySeating {
  import opened Sequences
  import opened GeometryPartition

  /**
   Every item has a seat, the position of the first item of its part. The part started at `l` is open to a new item when
   none of its items is of the new item's source or contradicts its box.
   */
  ghost predicate OpenTo(front: seq<Descriptor>, seats: seq<nat>, item: Descriptor, l: nat)
    requires |seats| == |front|
  {
    && l < |front| && seats[l] == l
    && forall k | 0 <= k < |front| && seats[k] == l ::
         && front[k].candidate.source != item.candidate.source
         && !Contradicts(front[k].candidate, item.candidate)
  }

  ghost predicate OnlyOpenTo(front: seq<Descriptor>, seats: seq<nat>, item: Descriptor, l: nat)
    requires |seats| == |front|
  {
    OpenTo(front, seats, item, l) && forall m: nat | OpenTo(front, seats, item, m) :: m == l
  }

  /** The seat after `front`: at the one part that is open, or, with none or several, at a part of its own. */
  ghost predicate TakesSeat(front: seq<Descriptor>, seats: seq<nat>, item: Descriptor, l: nat)
    requires |seats| == |front|
  {
    if exists m: nat :: OnlyOpenTo(front, seats, item, m) then OnlyOpenTo(front, seats, item, l) else l == |front|
  }

  ghost predicate Seating(items: seq<Descriptor>, seats: seq<nat>) {
    && |seats| == |items|
    && forall n | 0 <= n < |items| :: TakesSeat(items[..n], seats[..n], items[n], seats[n])
  }

  /** The items of the part started at `l`, in order. */
  function ItemsAt(items: seq<Descriptor>, seats: seq<nat>, l: nat): Part
    requires |seats| == |items|
  {
    if items == [] then []
    else
      var last := |items| - 1;
      ItemsAt(items[..last], seats[..last], l) + (if seats[last] == l then [items[last]] else [])
  }

  /** The positions at which parts start. */
  function Starts(seats: seq<nat>): seq<nat> {
    if seats == [] then []
    else Starts(seats[..|seats| - 1]) + (if seats[|seats| - 1] == |seats| - 1 then [|seats| - 1] else [])
  }

  function PartsAt(items: seq<Descriptor>, seats: seq<nat>, starts: seq<nat>): (parts: seq<Part>)
    requires |seats| == |items|
  {
    Map((l: nat) => ItemsAt(items, seats, l), starts)
  }

  lemma {:induction false} StartsAre(seats: seq<nat>)
    ensures forall l: nat :: l in Starts(seats) <==> l < |seats| && seats[l] == l
    ensures Distinct(Starts(seats))
  {
    if seats == [] {
    } else {
      var front := seats[..|seats| - 1];
      StartsAre(front);
      if seats[|seats| - 1] == |seats| - 1 {
        DistinctStep(Starts(front), |seats| - 1);
      }
    }
  }

  lemma {:induction false} ItemsAtAre(items: seq<Descriptor>, seats: seq<nat>, l: nat, d: Descriptor)
    requires |seats| == |items|
    ensures d in ItemsAt(items, seats, l) <==> exists k :: 0 <= k < |items| && seats[k] == l && items[k] == d
  {
    if items == [] {
    } else {
      var last := |items| - 1;
      ItemsAtAre(items[..last], seats[..last], l, d);
      if k :| 0 <= k < |items| && seats[k] == l && items[k] == d && k < last {
        assert seats[..last][k] == l && items[..last][k] == d;
      }
      if k :| 0 <= k < last && seats[..last][k] == l && items[..last][k] == d {
        assert seats[k] == l && items[k] == d;
      }
    }
  }

  lemma {:induction false} NothingAt(items: seq<Descriptor>, seats: seq<nat>, l: nat)
    requires |seats| == |items| && l !in seats
    ensures ItemsAt(items, seats, l) == []
  {
    if items == [] {
    } else {
      NothingAt(items[..|items| - 1], seats[..|items| - 1], l);
    }
  }

  // ---- the parts welcome an item as their seats are open to it ----

  lemma OpenIsWelcome(front: seq<Descriptor>, seats: seq<nat>, item: Descriptor, l: nat)
    requires |seats| == |front| && l < |front| && seats[l] == l
    ensures Welcomes(ItemsAt(front, seats, l), item) <==> OpenTo(front, seats, item, l)
  {
    var part := ItemsAt(front, seats, l);
    forall d ensures d in part <==> exists k :: 0 <= k < |front| && seats[k] == l && front[k] == d {
      ItemsAtAre(front, seats, l, d);
    }
    if Welcomes(part, item) {
      forall k | 0 <= k < |front| && seats[k] == l
        ensures front[k].candidate.source != item.candidate.source
        ensures !Contradicts(front[k].candidate, item.candidate)
      {
        assert front[k] in part;
      }
    }
  }

  lemma OnlyOpenIsOnlyWelcome(front: seq<Descriptor>, seats: seq<nat>, item: Descriptor, i: nat)
    requires |seats| == |front| && i < |Starts(seats)|
    ensures OnlyWelcome(PartsAt(front, seats, Starts(seats)), item, i) <==>
              OnlyOpenTo(front, seats, item, Starts(seats)[i])
  {
    var starts := Starts(seats);
    var parts := PartsAt(front, seats, starts);
    StartsAre(seats);
    forall j | 0 <= j < |starts| ensures Welcomes(parts[j], item) <==> OpenTo(front, seats, item, starts[j]) {
      assert starts[j] in starts;
      OpenIsWelcome(front, seats, item, starts[j]);
    }
    if OnlyWelcome(parts, item, i) {
      forall m: nat | OpenTo(front, seats, item, m) ensures m == starts[i] {
        var j :| 0 <= j < |starts| && starts[j] == m;
      }
    }
    if OnlyOpenTo(front, seats, item, starts[i]) {
      forall k | 0 <= k < |parts| && k != i ensures !Welcomes(parts[k], item) {
        assert starts[k] != starts[i];
      }
    }
  }

  // ---- one more item ----

  lemma ItemsAtStep(front: seq<Descriptor>, seats: seq<nat>, item: Descriptor, seat: nat, l: nat)
    requires |seats| == |front|
    ensures ItemsAt(front + [item], seats + [seat], l)
         == ItemsAt(front, seats, l) + if seat == l then [item] else []
  {
    assert (front + [item])[..|front|] == front && (seats + [seat])[..|front|] == seats;
  }

  lemma StartsStep(seats: seq<nat>, seat: nat)
    ensures Starts(seats + [seat]) == Starts(seats) + if seat == |seats| then [seat] else []
  {
    assert (seats + [seat])[..|seats|] == seats;
  }

  lemma PartsStartStep(front: seq<Descriptor>, seats: seq<nat>, item: Descriptor)
    requires |seats| == |front| && |front| !in seats
    ensures PartsAt(front + [item], seats + [|front|], Starts(seats + [|front|]))
         == PartsAt(front, seats, Starts(seats)) + [[item]]
  {
    var n, starts := |front|, Starts(seats);
    StartsStep(seats, n);
    StartsAre(seats);
    NothingAt(front, seats, n);
    forall i | 0 <= i < |starts| + 1
      ensures PartsAt(front + [item], seats + [n], starts + [n])[i] == (PartsAt(front, seats, starts) + [[item]])[i]
    {
      ItemsAtStep(front, seats, item, n, (starts + [n])[i]);
      assert i < |starts| ==> starts[i] in starts;
    }
  }

  lemma PartsJoinStep(front: seq<Descriptor>, seats: seq<nat>, item: Descriptor, i: nat)
    requires |seats| == |front| && i < |Starts(seats)|
    ensures var starts := Starts(seats);
            var before := PartsAt(front, seats, starts);
            PartsAt(front + [item], seats + [starts[i]], Starts(seats + [starts[i]]))
              == before[i := before[i] + [item]]
  {
    var starts := Starts(seats);
    var before := PartsAt(front, seats, starts);
    StartsAre(seats);
    assert starts[i] in starts;
    StartsStep(seats, starts[i]);
    var after := PartsAt(front + [item], seats + [starts[i]], starts);
    forall j | 0 <= j < |starts| ensures after[j] == before[i := before[i] + [item]][j] {
      ItemsAtStep(front, seats, item, starts[i], starts[j]);
    }
    assert after == before[i := before[i] + [item]];
  }

  // ---- the theorem ----

  lemma FrontIsSeated(front: seq<Descriptor>, item: Descriptor, seats: seq<nat>, seat: nat)
    requires Seating(front + [item], seats + [seat])
    ensures Seating(front, seats) && TakesSeat(front, seats, item, seat)
  {
    var items, all := front + [item], seats + [seat];
    forall n | 0 <= n < |front| ensures TakesSeat(front[..n], seats[..n], front[n], seats[n]) {
      assert TakesSeat(items[..n], all[..n], items[n], all[n]);
      assert items[..n] == front[..n] && all[..n] == seats[..n];
    }
    assert TakesSeat(items[..|front|], all[..|front|], items[|front|], all[|front|]);
    assert items[..|front|] == front && all[..|front|] == seats;
  }

  lemma SeatsAreEarlier(items: seq<Descriptor>, seats: seq<nat>)
    requires Seating(items, seats)
    ensures forall n | 0 <= n < |seats| :: seats[n] <= n
  {
    forall n | 0 <= n < |seats| ensures seats[n] <= n {
      assert TakesSeat(items[..n], seats[..n], items[n], seats[n]);
    }
  }

  /** The loop's parts are those of any seating, in the order of their first items. */
  lemma {:induction false} PartsAreSeated(items: seq<Descriptor>, seats: seq<nat>)
    requires Seating(items, seats)
    ensures PlaceAll(items) == PartsAt(items, seats, Starts(seats))
  {
    if items == [] {
    } else {
      var n := |items| - 1;
      var front, frontSeats := items[..n], seats[..n];
      assert items == front + [items[n]] && seats == frontSeats + [seats[n]];
      FrontIsSeated(front, items[n], frontSeats, seats[n]);
      PartsAreSeated(front, frontSeats);
      LastIsSeated(front, frontSeats, items[n], seats[n]);
    }
  }

  lemma LastIsSeated(front: seq<Descriptor>, seats: seq<nat>, item: Descriptor, seat: nat)
    requires Seating(front, seats) && TakesSeat(front, seats, item, seat)
    requires PlaceAll(front) == PartsAt(front, seats, Starts(seats))
    ensures PlaceAll(front + [item]) == PartsAt(front + [item], seats + [seat], Starts(seats + [seat]))
  {
    var starts := Starts(seats);
    StartsAre(seats);
    SeatsAreEarlier(front, seats);
    PlacementLaw(front, item);
    if seat < |front| {
      var i :| 0 <= i < |starts| && starts[i] == seat;
      OnlyOpenIsOnlyWelcome(front, seats, item, i);
      PartsJoinStep(front, seats, item, i);
    } else {
      forall i ensures !OnlyWelcome(PlaceAll(front), item, i) {
        if 0 <= i < |starts| {
          OnlyOpenIsOnlyWelcome(front, seats, item, i);
        }
      }
      PartsStartStep(front, seats, item);
    }
  }

  /** There is a seating of any items. */
  lemma {:induction false} SomeSeating(items: seq<Descriptor>) returns (seats: seq<nat>)
    ensures Seating(items, seats)
  {
    seats := [];
    if items == [] {
    } else {
      var n := |items| - 1;
      var front := SomeSeating(items[..n]);
      var seat := n;
      if l: nat :| OnlyOpenTo(items[..n], front, items[n], l) {
        seat := l;
      }
      seats := front + [seat];
      forall k | 0 <= k < |items| ensures TakesSeat(items[..k], seats[..k], items[k], seats[k]) {
        if k < n {
          assert TakesSeat(items[..n][..k], front[..k], items[..n][k], front[k]);
          assert items[..n][..k] == items[..k] && front[..k] == seats[..k];
        } else {
          assert seats[..n] == front;
        }
      }
    }
  }

  /**
   Once a source repeats, the parts are those of a seating: an item shares the part of an earlier one exactly when one
   part alone was open to it, and with none or several it starts its own.
   */
  lemma PartitionsAreSeated(items: seq<Descriptor>) returns (seats: seq<nat>)
    ensures Seating(items, seats)
    ensures (exists i, j :: 0 <= i < j < |items| && items[i].candidate.source == items[j].candidate.source) ==>
              Partitions(items) == PartsAt(items, seats, Starts(seats))
    ensures forall n | 0 <= n < |items| ::
              seats[n] < n <==> exists l: nat :: OnlyOpenTo(items[..n], seats[..n], items[n], l)
  {
    seats := SomeSeating(items);
    PartsAreSeated(items, seats);
    PartitionsSplitRepeats(items);
    forall n | 0 <= n < |items|
      ensures seats[n] < n <==> exists l: nat :: OnlyOpenTo(items[..n], seats[..n], items[n], l)
    {
      assert TakesSeat(items[..n], seats[..n], items[n], seats[n]);
    }
  }
}
