/** Contracts with start blocks of their own: every event is delivered exactly once, and in block order for
    every node exactly if all contracts start together or everything fits into one range. */
module DeliveryOrder {
  import opened Sorting
  import opened Planner
  import opened Delivery
  import opened Backfill
  import opened BackfillSafety
  import opened Naturals

  /** The events that the contracts should deliver, from their starts to the head. */
  function Wanted(source: Source, cs: seq<Contract>, cp: map<string, nat>, head: nat): seq<Event> {
    if cs == [] then []
    else EventsIn(source, cs[0].name, StartOf(cs[0], cp), head + 1) + Wanted(source, cs[1..], cp, head)
  }

  // Exactly once

  /** The events of one plan's ranges i..n-1. */
  function PlanEvents(source: Source, p: ContractPlan, i: nat, n: nat): seq<Event>
    decreases n - i
  {
    if i >= n then []
    else (if i < |p.ranges| then Fetch(source, p.name, p.ranges[i]) else []) + PlanEvents(source, p, i + 1, n)
  }

  lemma {:induction false} DeliveredAdds(source: Source, plans: seq<ContractPlan>, i: nat, n: nat)
    requires plans != []
    ensures multiset(Delivered(source, plans, i, n)) ==
            multiset(PlanEvents(source, plans[0], i, n)) + multiset(Delivered(source, plans[1..], i, n))
    decreases n - i
  {
    if i < n {
      DeliveredAdds(source, plans, i + 1, n);
      SortKeeps(GatherAt(source, plans, i), ByPosition());
      SortKeeps(GatherAt(source, plans[1..], i), ByPosition());
    }
  }

  /** The events of consecutive ranges. */
  function RangeEvents(source: Source, c: string, rs: seq<BlockRange>): seq<Event> {
    if rs == [] then [] else Fetch(source, c, rs[0]) + RangeEvents(source, c, rs[1..])
  }

  lemma {:induction false} PlanIsRanges(source: Source, p: ContractPlan, i: nat, n: nat)
    requires i <= |p.ranges| <= n
    ensures PlanEvents(source, p, i, n) == RangeEvents(source, p.name, p.ranges[i..])
    decreases n - i
  {
    if i < |p.ranges| {
      PlanIsRanges(source, p, i + 1, n);
      assert p.ranges[i..][0] == p.ranges[i] && p.ranges[i..][1..] == p.ranges[i + 1..];
    } else {
      NoMorePlanEvents(source, p, i, n);
    }
  }

  lemma {:induction false} NoMorePlanEvents(source: Source, p: ContractPlan, i: nat, n: nat)
    requires i >= |p.ranges|
    ensures PlanEvents(source, p, i, n) == []
    decreases n - i
  {
    if i < n {
      NoMorePlanEvents(source, p, i + 1, n);
    }
  }

  lemma {:induction false} RangeEventsAre(source: Source, c: string, rs: seq<BlockRange>, from: nat, head: nat,
                                          chunk: nat)
    requires Partitions(rs, from, head, chunk)
    ensures multiset(RangeEvents(source, c, rs)) == multiset(EventsIn(source, c, from, head + 1))
    decreases |rs|
  {
    if rs != [] {
      RangeEventsAre(source, c, rs[1..], rs[0].to + 1, head, chunk);
      FetchKeeps(source, c, rs[0]);
      EventsInSplit(source, c, from, rs[0].to + 1, head + 1);
      Rejoined(RangeEvents(source, c, rs), Fetch(source, c, rs[0]), RangeEvents(source, c, rs[1..]),
               EventsIn(source, c, from, head + 1), EventsIn(source, c, from, rs[0].to + 1),
               EventsIn(source, c, rs[0].to + 1, head + 1));
    }
  }

  lemma Rejoined(x: seq<Event>, a: seq<Event>, b: seq<Event>, y: seq<Event>, c: seq<Event>, d: seq<Event>)
    requires x == a + b && y == c + d && multiset(a) == multiset(c) && multiset(b) == multiset(d)
    ensures multiset(x) == multiset(y)
  {
  }

  lemma {:induction false} NothingDelivered(source: Source, i: nat, n: nat)
    ensures Delivered(source, [], i, n) == []
    decreases n - i
  {
    if i < n {
      NothingDelivered(source, i + 1, n);
      assert Batch(source, [], i) == [];
    }
  }

  lemma {:induction false} DeliveredAre(source: Source, cs: seq<Contract>, cp: map<string, nat>, head: nat,
                                        chunk: nat, n: nat)
    requires chunk >= 1 && MaxRanges(PlansFor(cs, cp, head, chunk)) <= n
    ensures multiset(Delivered(source, PlansFor(cs, cp, head, chunk), 0, n)) == multiset(Wanted(source, cs, cp, head))
    decreases |cs|
  {
    var plans := PlansFor(cs, cp, head, chunk);
    if cs == [] {
      NothingDelivered(source, 0, n);
    } else {
      var start := StartOf(cs[0], cp);
      assert plans[1..] == PlansFor(cs[1..], cp, head, chunk);
      DeliveredAre(source, cs[1..], cp, head, chunk, n);
      DeliveredAdds(source, plans, 0, n);
      ChunksPartition(start, head, chunk);
      assert plans[0].ranges[0..] == plans[0].ranges;
      PlanIsRanges(source, plans[0], 0, n);
      RangeEventsAre(source, plans[0].name, plans[0].ranges, start, head, chunk);
    }
  }

  // Distinct positions

  function Names(cs: seq<Contract>): seq<string> {
    seq(|cs|, i requires 0 <= i < |cs| => cs[i].name)
  }

  lemma {:induction false} WantedWithin(source: Source, cs: seq<Contract>, cp: map<string, nat>, head: nat)
    ensures multiset(Wanted(source, cs, cp, head)) <= multiset(AllEvents(source, Names(cs), 0, head + 1))
    decreases |cs|
  {
    if cs != [] {
      var c, start := cs[0].name, StartOf(cs[0], cp);
      assert Names(cs)[0] == c && Names(cs)[1..] == Names(cs[1..]);
      WantedWithin(source, cs[1..], cp, head);
      if start <= head + 1 {
        EventsInSplit(source, c, 0, start, head + 1);
      }
      assert multiset(EventsIn(source, c, start, head + 1)) <= multiset(EventsIn(source, c, 0, head + 1));
    }
  }

  lemma DistinctWithin(s: seq<Event>, r: seq<Event>)
    requires Distinct(s) && multiset(r) <= multiset(s)
    ensures Distinct(r)
  {
    forall i, j | 0 <= i < j < |r|
      ensures !SamePlace(r[i], r[j])
    {
      if r[i] == r[j] {
        TwiceIn(r, i, j);
        var a, b := CountedTwice(s, r[i]);
      } else {
        assert r[i] in multiset(r) && r[j] in multiset(r);
        assert r[i] in s && r[j] in s;
      }
    }
  }

  lemma WantedDistinct(source: Source, cs: seq<Contract>, cp: map<string, nat>, head: nat)
    requires Honest(source) && Positioned(source, Names(cs))
    ensures Distinct(Wanted(source, cs, cp, head))
  {
    AllEventsDistinct(source, Names(cs), 0, head + 1);
    WantedWithin(source, cs, cp, head);
    DistinctWithin(AllEvents(source, Names(cs), 0, head + 1), Wanted(source, cs, cp, head));
  }

  // In order

  lemma SortedDistinctStrict(s: seq<Event>)
    requires Sorted(s, ByPosition()) && Distinct(s)
    ensures StrictlySorted(s, ByPosition())
  {
  }

  lemma DistinctParts(s: seq<Event>, r: seq<Event>)
    requires Distinct(s + r)
    ensures Distinct(s) && Distinct(r)
  {
    forall i, j | 0 <= i < j < |s|
      ensures !SamePlace(s[i], s[j])
    {
      assert (s + r)[i] == s[i] && (s + r)[j] == s[j];
    }
    forall i, j | 0 <= i < j < |r|
      ensures !SamePlace(r[i], r[j])
    {
      assert (s + r)[|s| + i] == r[i] && (s + r)[|s| + j] == r[j];
    }
  }

  /** Every plan has the same ranges, or none. */
  predicate Aligned(plans: seq<ContractPlan>, rs: seq<BlockRange>) {
    forall p <- plans :: p.ranges == [] || p.ranges == rs
  }

  lemma {:induction false} GatherBlocks(source: Source, plans: seq<ContractPlan>, rs: seq<BlockRange>, i: nat)
    requires Honest(source) && Aligned(plans, rs) && i < |rs|
    ensures forall e <- GatherAt(source, plans, i) :: rs[i].Holds(e.block)
  {
    if plans != [] {
      var p := plans[0];
      assert p in plans;
      GatherBlocks(source, plans[1..], rs, i);
      if i < |p.ranges| {
        EventsInBlocks(source, p.name, rs[i].from, rs[i].to + 1);
        SortKeeps(EventsIn(source, p.name, rs[i].from, rs[i].to + 1), ByPosition());
      }
    }
  }

  /** Events in strict order, none before the i-th range. */
  ghost predicate InOrderFrom(events: seq<Event>, rs: seq<BlockRange>, i: nat) {
    && StrictlySorted(events, ByPosition())
    && if i < |rs| then forall e <- events :: e.block >= rs[i].from else events == []
  }

  lemma {:induction false} RestInOrder(source: Source, plans: seq<ContractPlan>, rs: seq<BlockRange>,
                                       start: nat, head: nat, chunk: nat, i: nat)
    requires Honest(source) && Aligned(plans, rs) && Partitions(rs, start, head, chunk) && i <= |rs|
    requires Distinct(Delivered(source, plans, i, |rs|))
    ensures InOrderFrom(Delivered(source, plans, i, |rs|), rs, i)
    decreases |rs| - i
  {
    if i < |rs| {
      var batch, rest := Batch(source, plans, i), Delivered(source, plans, i + 1, |rs|);
      assert Delivered(source, plans, i, |rs|) == batch + rest;
      DistinctParts(batch, rest);
      RestInOrder(source, plans, rs, start, head, chunk, i + 1);
      BatchStrict(source, plans, rs, i);
      OneMoreBatch(rs, start, head, chunk, i, batch, rest);
    }
  }

  lemma OneMoreBatch(rs: seq<BlockRange>, start: nat, head: nat, chunk: nat, i: nat, batch: seq<Event>,
                     rest: seq<Event>)
    requires Partitions(rs, start, head, chunk) && i < |rs|
    requires StrictlySorted(batch, ByPosition()) && forall e <- batch :: rs[i].Holds(e.block)
    requires InOrderFrom(rest, rs, i + 1)
    ensures InOrderFrom(batch + rest, rs, i)
  {
    ReachedIsFrom(rs, start, head, chunk, i);
    if i + 1 < |rs| {
      ReachedIsFrom(rs, start, head, chunk, i + 1);
    }
    SortedConcat(batch, rest, rs[i].to + 1);
  }

  lemma BatchStrict(source: Source, plans: seq<ContractPlan>, rs: seq<BlockRange>, i: nat)
    requires Honest(source) && Aligned(plans, rs) && i < |rs| && Distinct(Batch(source, plans, i))
    ensures StrictlySorted(Batch(source, plans, i), ByPosition())
    ensures forall e <- Batch(source, plans, i) :: rs[i].Holds(e.block)
  {
    GatherBlocks(source, plans, rs, i);
    SortKeeps(GatherAt(source, plans, i), ByPosition());
    PositionOrders();
    SortSorts(GatherAt(source, plans, i), ByPosition());
    SortedDistinctStrict(Batch(source, plans, i));
  }

  lemma {:induction false} MaxAttained(plans: seq<ContractPlan>) returns (k: nat)
    requires MaxRanges(plans) > 0
    ensures k < |plans| && |plans[k].ranges| == MaxRanges(plans)
  {
    if |plans[0].ranges| == MaxRanges(plans) {
      k := 0;
    } else {
      k := MaxAttained(plans[1..]);
      k := k + 1;
    }
  }

  /** All contracts that still have blocks to fetch start at the same one. */
  predicate StartTogether(cs: seq<Contract>, cp: map<string, nat>, head: nat) {
    forall c <- cs, d <- cs :: StartOf(c, cp) <= head && StartOf(d, cp) <= head ==> StartOf(c, cp) == StartOf(d, cp)
  }

  lemma TogetherAligned(cs: seq<Contract>, cp: map<string, nat>, head: nat, chunk: nat) returns (start: nat)
    requires chunk >= 1 && StartTogether(cs, cp, head) && MaxRanges(PlansFor(cs, cp, head, chunk)) > 0
    ensures Aligned(PlansFor(cs, cp, head, chunk), Chunks(start, head, chunk))
    ensures MaxRanges(PlansFor(cs, cp, head, chunk)) == |Chunks(start, head, chunk)|
  {
    var plans := PlansFor(cs, cp, head, chunk);
    var k := MaxAttained(plans);
    start := StartOf(cs[k], cp);
    assert cs[k] in cs && start <= head;
    forall p | p in plans
      ensures p.ranges == [] || p.ranges == Chunks(start, head, chunk)
    {
      var j :| 0 <= j < |plans| && plans[j] == p;
      assert cs[j] in cs;
    }
  }

  lemma OneRangeInOrder(source: Source, plans: seq<ContractPlan>)
    requires Distinct(Delivered(source, plans, 0, MaxRanges(plans))) && MaxRanges(plans) <= 1
    ensures StrictlySorted(Delivered(source, plans, 0, MaxRanges(plans)), ByPosition())
  {
    if MaxRanges(plans) == 1 {
      var batch := Batch(source, plans, 0);
      assert Delivered(source, plans, 1, 1) == [] && batch + [] == batch;
      PositionOrders();
      SortSorts(GatherAt(source, plans, 0), ByPosition());
      SortedDistinctStrict(batch);
    }
  }

  /** The handlers see the wanted events in order of position. */
  ghost predicate BlockOrder(source: Source, cs: seq<Contract>, cp: map<string, nat>, head: nat, chunk: nat)
    requires chunk >= 1
  {
    var plans := PlansFor(cs, cp, head, chunk);
    Delivered(source, plans, 0, MaxRanges(plans)) == Sort(Wanted(source, cs, cp, head), ByPosition())
  }

  /** Ordered delivery: every wanted event, lower blocks first and lower log indexes first within a block. */
  lemma BlockOrderMeans(source: Source, cs: seq<Contract>, cp: map<string, nat>, head: nat, chunk: nat)
    requires chunk >= 1 && BlockOrder(source, cs, cp, head, chunk)
    ensures var plans := PlansFor(cs, cp, head, chunk);
      var events := Delivered(source, plans, 0, MaxRanges(plans));
      InPosition(events) && multiset(events) == multiset(Wanted(source, cs, cp, head))
  {
    SortedInPosition(Wanted(source, cs, cp, head));
  }

  ghost predicate Orderly(source: Source, cs: seq<Contract>, cp: map<string, nat>, head: nat, chunk: nat)
    requires chunk >= 1
  {
    Honest(source) && Positioned(source, Names(cs)) ==> BlockOrder(source, cs, cp, head, chunk)
  }

  lemma TogetherOrderly(source: Source, cs: seq<Contract>, cp: map<string, nat>, head: nat, chunk: nat)
    requires chunk >= 1 && Honest(source) && Positioned(source, Names(cs))
    requires MaxRanges(PlansFor(cs, cp, head, chunk)) <= 1 || StartTogether(cs, cp, head)
    ensures BlockOrder(source, cs, cp, head, chunk)
  {
    var plans := PlansFor(cs, cp, head, chunk);
    var n := MaxRanges(plans);
    var all, delivered := Wanted(source, cs, cp, head), Delivered(source, plans, 0, n);
    DeliveredAre(source, cs, cp, head, chunk, n);
    WantedDistinct(source, cs, cp, head);
    DistinctRearranged(all, delivered);
    if n <= 1 {
      OneRangeInOrder(source, plans);
    } else {
      var start := TogetherAligned(cs, cp, head, chunk);
      ChunksPartition(start, head, chunk);
      RestInOrder(source, plans, Chunks(start, head, chunk), start, head, chunk, 0);
    }
    DistinctSortsStrictly(all);
    SortKeeps(all, ByPosition());
    StrictlySortedUnique(delivered, Sort(all, ByPosition()), ByPosition());
  }

  // Contracts that do not start together

  /** One event of c at block f and one, later in position, of d at block g. */
  function TwoEvents(c: string, f: nat, d: string, g: nat): Source {
    (name: string, n: nat) =>
      if name == c && n == f then [Event(c, f, 0, "")]
      else if name == d && n == g then [Event(d, g, 1, "")]
      else []
  }

  lemma TwoEventsFine(c: string, f: nat, d: string, g: nat, names: seq<string>)
    requires forall i, j :: 0 <= i < j < |names| ==> names[i] != names[j]
    ensures Honest(TwoEvents(c, f, d, g)) && Positioned(TwoEvents(c, f, d, g), names)
  {
  }

  lemma InDelivered(source: Source, plans: seq<ContractPlan>, i: nat, n: nat, e: Event)
    requires i < n && e in GatherAt(source, plans, i)
    ensures e in Batch(source, plans, i) && e in Delivered(source, plans, i, n)
  {
    SortKeeps(GatherAt(source, plans, i), ByPosition());
  }

  lemma NotSorted(s: seq<Event>, r: seq<Event>, x: Event, y: Event)
    requires x in s && y in r && !Before(x, y)
    ensures !Sorted(s + r, ByPosition())
  {
    var i :| 0 <= i < |s| && s[i] == x;
    var j :| 0 <= j < |r| && r[j] == y;
    assert (s + r)[i] == x && (s + r)[|s| + j] == y;
    assert !ByPosition()((s + r)[i], (s + r)[|s| + j]);
  }

  /** A contract with two ranges and one that starts later: place an event of the first at the start of its second
      range, and one of the other behind it, in its own first range. */
  lemma ApartDisorderly(cs: seq<Contract>, cp: map<string, nat>, head: nat, chunk: nat, a: nat, b: nat)
    returns (source: Source)
    requires chunk >= 1 && DistinctNames(cs) && a < |cs| && b < |cs|
    requires StartOf(cs[a], cp) < StartOf(cs[b], cp) <= head && StartOf(cs[a], cp) + chunk <= head
    ensures !Orderly(source, cs, cp, head, chunk)
  {
    var c, d := cs[a].name, cs[b].name;
    var f, g := ApartBlocks(cs, cp, head, chunk, a, b);
    source := TwoEvents(c, f, d, g);
    NamesApart(cs, a, b);
    TwoEventsFine(c, f, d, g, Names(cs));
    TwoDisordered(PlansFor(cs, cp, head, chunk), a, b, c, d, f, g);
    OutOfOrder(source, cs, cp, head, chunk);
  }

  lemma NamesApart(cs: seq<Contract>, a: nat, b: nat)
    requires DistinctNames(cs) && a < |cs| && b < |cs| && a != b
    ensures cs[a].name != cs[b].name
    ensures forall i, j :: 0 <= i < j < |cs| ==> Names(cs)[i] != Names(cs)[j]
  {
    assert forall i :: 0 <= i < |cs| ==> Names(cs)[i] == cs[i].name;
  }

  lemma TwoDisordered(plans: seq<ContractPlan>, a: nat, b: nat, c: string, d: string, f: nat, g: nat)
    requires a < |plans| && b < |plans| && plans[a].name == c && plans[b].name == d && c != d
    requires MaxRanges(plans) > 1 && f <= g
    requires |plans[a].ranges| > 1 && plans[a].ranges[1].Holds(f)
    requires |plans[b].ranges| > 0 && plans[b].ranges[0].Holds(g)
    ensures !Sorted(Delivered(TwoEvents(c, f, d, g), plans, 0, MaxRanges(plans)), ByPosition())
  {
    var source, early, late := TwoEvents(c, f, d, g), Event(c, f, 0, ""), Event(d, g, 1, "");
    EventInGather(source, plans, 1, a, f, early);
    EventInGather(source, plans, 0, b, g, late);
    Disordered(source, plans, MaxRanges(plans), early, late);
  }

  /** The two blocks. */
  lemma ApartBlocks(cs: seq<Contract>, cp: map<string, nat>, head: nat, chunk: nat, a: nat, b: nat)
    returns (f: nat, g: nat)
    requires chunk >= 1 && a < |cs| && b < |cs|
    requires StartOf(cs[a], cp) < StartOf(cs[b], cp) <= head && StartOf(cs[a], cp) + chunk <= head
    ensures var plans := PlansFor(cs, cp, head, chunk);
      && plans[a].name == cs[a].name && plans[b].name == cs[b].name && MaxRanges(plans) > 1
      && |plans[a].ranges| > 1 && plans[a].ranges[1].Holds(f)
      && |plans[b].ranges| > 0 && plans[b].ranges[0].Holds(g)
    ensures f <= g
  {
    var plans := PlansFor(cs, cp, head, chunk);
    TwoRanges(StartOf(cs[a], cp), head, chunk);
    TwoRanges(StartOf(cs[b], cp), head, chunk);
    f, g := plans[a].ranges[1].from, plans[b].ranges[0].to;
    MaxAtMin(plans, a);
  }

  /** A delivery that is not sorted is not the sorted list of the events. */
  lemma OutOfOrder(source: Source, cs: seq<Contract>, cp: map<string, nat>, head: nat, chunk: nat)
    requires chunk >= 1 && Honest(source) && Positioned(source, Names(cs))
    requires var plans := PlansFor(cs, cp, head, chunk);
      !Sorted(Delivered(source, plans, 0, MaxRanges(plans)), ByPosition())
    ensures !Orderly(source, cs, cp, head, chunk)
  {
    PositionOrders();
    SortSorts(Wanted(source, cs, cp, head), ByPosition());
  }

  lemma Disordered(source: Source, plans: seq<ContractPlan>, n: nat, early: Event, late: Event)
    requires n > 1 && !Before(late, early)
    requires late in GatherAt(source, plans, 0) && early in GatherAt(source, plans, 1)
    ensures !Sorted(Delivered(source, plans, 0, n), ByPosition())
  {
    InDelivered(source, plans, 1, n, early);
    InDelivered(source, plans, 0, n, late);
    NotSorted(Batch(source, plans, 0), Delivered(source, plans, 1, n), late, early);
  }

  /** The first two ranges of a plan. */
  lemma TwoRanges(start: nat, head: nat, chunk: nat)
    requires chunk >= 1 && start <= head
    ensures var rs := Chunks(start, head, chunk);
      && |rs| >= 1 && rs[0] == BlockRange(start, Min(start + chunk - 1, head))
      && (|rs| >= 2 <==> start + chunk <= head)
      && (|rs| >= 2 ==> rs[1].from == start + chunk <= rs[1].to)
  {
    var to := Min(start + chunk - 1, head);
    var rest := Chunks(to + 1, head, chunk);
    assert Chunks(start, head, chunk) == [BlockRange(start, to)] + rest;
    if start + chunk <= head {
      assert rest == [BlockRange(to + 1, Min(to + chunk, head))] + Chunks(Min(to + chunk, head) + 1, head, chunk);
    }
  }

  lemma SomeDisorder(cs: seq<Contract>, cp: map<string, nat>, head: nat, chunk: nat) returns (source: Source)
    requires chunk >= 1 && DistinctNames(cs)
    requires MaxRanges(PlansFor(cs, cp, head, chunk)) > 1 && !StartTogether(cs, cp, head)
    ensures !Orderly(source, cs, cp, head, chunk)
  {
    var k := MaxAttained(PlansFor(cs, cp, head, chunk));
    var s := StartOf(cs[k], cp);
    TwoRanges(s, head, chunk);
    var c, d :| c in cs && d in cs && StartOf(c, cp) <= head && StartOf(d, cp) <= head &&
      StartOf(c, cp) != StartOf(d, cp);
    var other := if StartOf(c, cp) != s then c else d;
    var j :| 0 <= j < |cs| && cs[j] == other;
    if StartOf(other, cp) > s {
      source := ApartDisorderly(cs, cp, head, chunk, k, j);
    } else {
      source := ApartDisorderly(cs, cp, head, chunk, j, k);
    }
  }

  /** Every event is delivered exactly once, whatever the starts and the chunk size. */
  lemma DeliveredOnce(source: Source, cs: seq<Contract>, cp: map<string, nat>, head: nat, chunk: nat)
    requires chunk >= 1
    ensures var plans := PlansFor(cs, cp, head, chunk);
      multiset(Delivered(source, plans, 0, MaxRanges(plans))) == multiset(Wanted(source, cs, cp, head))
  {
    DeliveredAre(source, cs, cp, head, chunk, MaxRanges(PlansFor(cs, cp, head, chunk)));
  }

  /** Delivery is in order of position for every node if and only if one range is enough for every contract, or
      all contracts that have blocks to fetch start at the same one. */
  lemma BlockOrderIff(cs: seq<Contract>, cp: map<string, nat>, head: nat, chunk: nat)
    requires chunk >= 1 && DistinctNames(cs)
    ensures (forall source :: Orderly(source, cs, cp, head, chunk)) <==>
            (MaxRanges(PlansFor(cs, cp, head, chunk)) <= 1 || StartTogether(cs, cp, head))
  {
    if MaxRanges(PlansFor(cs, cp, head, chunk)) <= 1 || StartTogether(cs, cp, head) {
      forall source
        ensures Orderly(source, cs, cp, head, chunk)
      {
        if Honest(source) && Positioned(source, Names(cs)) {
          TogetherOrderly(source, cs, cp, head, chunk);
        }
      }
    } else {
      var source := SomeDisorder(cs, cp, head, chunk);
    }
  }
}
