/** Fetching, merging and sorting events (crates/forge-index-sync/src/backfill/worker.rs and
    coordinator.rs:116-167), and why the cut into ranges does not show. */
module Delivery {
  import opened Tables
  import opened Sequences
  import opened Sorting
  import opened Planner

  /** A decoded event with the position of its log. */
  datatype Event = Event(contract: string, block: nat, logIndex: nat, body: string)

  /** The decodable events of a contract in a block, as the node reports them. */
  type Source = (string, nat) -> seq<Event>

  function Before(a: Event, b: Event): bool {
    a.block < b.block || (a.block == b.block && a.logIndex <= b.logIndex)
  }

  function ByPosition(): (Event, Event) -> bool {
    (a: Event, b: Event) => Before(a, b)
  }

  lemma PositionOrders()
    ensures TotalPreorder(ByPosition())
  {
  }

  /** Lower blocks first, and lower log indexes first within a block. */
  predicate InPosition(events: seq<Event>) {
    forall i, j :: 0 <= i < j < |events| ==>
      && events[i].block <= events[j].block
      && (events[i].block == events[j].block ==> events[i].logIndex <= events[j].logIndex)
  }

  /** Sorting by position puts events in that order and keeps them. */
  lemma SortedInPosition(events: seq<Event>)
    ensures InPosition(Sort(events, ByPosition())) && multiset(Sort(events, ByPosition())) == multiset(events)
  {
    PositionOrders();
    SortKeeps(events, ByPosition());
    SortSorts(events, ByPosition());
    var s := Sort(events, ByPosition());
    forall i, j | 0 <= i < j < |s|
      ensures s[i].block <= s[j].block && (s[i].block == s[j].block ==> s[i].logIndex <= s[j].logIndex)
    {
      assert ByPosition()(s[i], s[j]);
    }
  }

  // The worker

  datatype Decoding = Decoded(event: Event) | UnknownSelector | Malformed

  /** The events among a batch of logs; unknown selectors are skipped. */
  function Decodable<L>(logs: seq<L>, decode: L -> Decoding): seq<Event> {
    if logs == [] then []
    else (if decode(logs[0]).Decoded? then [decode(logs[0]).event] else []) + Decodable(logs[1..], decode)
  }

  function Appended(events: seq<Event>, d: Decoding): seq<Event> {
    if d.Decoded? then events + [d.event] else events
  }

  lemma DecodableNext<L>(logs: seq<L>, decode: L -> Decoding, n: nat, events: seq<Event>)
    requires n < |logs|
    ensures events + Decodable(logs[n..], decode) ==
            Appended(events, decode(logs[n])) + Decodable(logs[n + 1..], decode)
  {
    var d, rest := decode(logs[n]), Decodable(logs[n + 1..], decode);
    assert logs[n..][1..] == logs[n + 1..];
    if d.Decoded? {
      assert events + ([d.event] + rest) == events + [d.event] + rest;
    } else {
      assert [] + rest == rest;
    }
  }

  method FetchRange<L>(logs: seq<L>, decode: L -> Decoding) returns (r: Option<seq<Event>>)
    ensures r.None? <==> exists l <- logs :: decode(l).Malformed?
    ensures r.Some? ==> r.value == Sort(Decodable(logs, decode), ByPosition())
  {
    var events := [];
    ghost var all := Decodable(logs, decode);
    for n := 0 to |logs|
      invariant forall i :: 0 <= i < n ==> !decode(logs[i]).Malformed?
      invariant all == events + Decodable(logs[n..], decode)
    {
      DecodableNext(logs, decode, n, events);
      var d := decode(logs[n]);
      if d.Malformed? {
        assert logs[n] in logs;
        return None;
      }
      events := Appended(events, d);
    }
    assert Decodable(logs[|logs|..], decode) == [];
    assert events == all;
    return Some(Sort(events, ByPosition()));
  }

  // The coordinator's merge

  /** A contract's events in blocks a..b-1, block by block. */
  function EventsIn(source: Source, c: string, a: nat, b: nat): seq<Event>
    decreases b - a
  {
    if a >= b then [] else source(c, a) + EventsIn(source, c, a + 1, b)
  }

  function AllEvents(source: Source, cs: seq<string>, a: nat, b: nat): seq<Event> {
    if cs == [] then [] else EventsIn(source, cs[0], a, b) + AllEvents(source, cs[1..], a, b)
  }

  /** What the worker of a contract returns for a range. */
  function Fetch(source: Source, c: string, r: BlockRange): seq<Event> {
    Sort(EventsIn(source, c, r.from, r.to + 1), ByPosition())
  }

  datatype ContractPlan = ContractPlan(name: string, ranges: seq<BlockRange>)

  /** The events of the i-th range of every plan that has one. */
  function GatherAt(source: Source, plans: seq<ContractPlan>, i: nat): seq<Event> {
    if plans == [] then []
    else
      (if i < |plans[0].ranges| then Fetch(source, plans[0].name, plans[0].ranges[i]) else []) +
      GatherAt(source, plans[1..], i)
  }

  /** What the handlers see of range i. */
  function Batch(source: Source, plans: seq<ContractPlan>, i: nat): seq<Event> {
    Sort(GatherAt(source, plans, i), ByPosition())
  }

  /** What the handlers see of ranges i..n-1, in order. */
  function Delivered(source: Source, plans: seq<ContractPlan>, i: nat, n: nat): seq<Event>
    decreases n - i
  {
    if i >= n then [] else Batch(source, plans, i) + Delivered(source, plans, i + 1, n)
  }

  function SamePlans(cs: seq<string>, rs: seq<BlockRange>): seq<ContractPlan> {
    if cs == [] then [] else [ContractPlan(cs[0], rs)] + SamePlans(cs[1..], rs)
  }

  // Hypotheses on the node

  /** Events are reported under the block they are in. */
  ghost predicate Honest(source: Source) {
    forall c, n, e :: e in source(c, n) ==> e.block == n
  }

  /** The contracts are distinct, and no two of their events share a block and a log index. */
  ghost predicate Positioned(source: Source, cs: seq<string>) {
    && (forall i, j :: 0 <= i < j < |cs| ==> cs[i] != cs[j])
    && (forall c <- cs, d <- cs, n, i, j | 0 <= i < |source(c, n)| && 0 <= j < |source(d, n)| ::
          source(c, n)[i].logIndex == source(d, n)[j].logIndex ==> c == d && i == j)
  }

  predicate SamePlace(x: Event, y: Event) {
    x.block == y.block && x.logIndex == y.logIndex
  }

  ghost predicate Distinct(s: seq<Event>) {
    forall i, j :: 0 <= i < j < |s| ==> !SamePlace(s[i], s[j])
  }

  // Proofs

  lemma {:induction false} EventsInBlocks(source: Source, c: string, a: nat, b: nat)
    requires Honest(source)
    ensures forall e <- EventsIn(source, c, a, b) :: a <= e.block < b
    decreases b - a
  {
    if a < b {
      EventsInBlocks(source, c, a + 1, b);
    }
  }

  lemma {:induction false} AllEventsBlocks(source: Source, cs: seq<string>, a: nat, b: nat)
    requires Honest(source)
    ensures forall e <- AllEvents(source, cs, a, b) :: a <= e.block < b
  {
    if cs != [] {
      EventsInBlocks(source, cs[0], a, b);
      AllEventsBlocks(source, cs[1..], a, b);
    }
  }

  lemma {:induction false} EventsInSplit(source: Source, c: string, a: nat, m: nat, b: nat)
    requires a <= m <= b
    ensures EventsIn(source, c, a, b) == EventsIn(source, c, a, m) + EventsIn(source, c, m, b)
    decreases m - a
  {
    if a < m {
      EventsInSplit(source, c, a + 1, m, b);
    }
  }

  lemma {:induction false} AllEventsSplit(source: Source, cs: seq<string>, a: nat, m: nat, b: nat)
    requires a <= m <= b
    ensures multiset(AllEvents(source, cs, a, b)) ==
            multiset(AllEvents(source, cs, a, m)) + multiset(AllEvents(source, cs, m, b))
  {
    if cs != [] {
      EventsInSplit(source, cs[0], a, m, b);
      AllEventsSplit(source, cs[1..], a, m, b);
    }
  }

  /** The events of one range of every contract. */
  function Gather(source: Source, cs: seq<string>, r: BlockRange): seq<Event> {
    if cs == [] then [] else Fetch(source, cs[0], r) + Gather(source, cs[1..], r)
  }

  lemma {:induction false} GatherSame(source: Source, cs: seq<string>, rs: seq<BlockRange>, i: nat)
    requires i < |rs|
    ensures GatherAt(source, SamePlans(cs, rs), i) == Gather(source, cs, rs[i])
  {
    if cs != [] {
      var plans := SamePlans(cs, rs);
      assert plans[0] == ContractPlan(cs[0], rs) && plans[1..] == SamePlans(cs[1..], rs);
      GatherSame(source, cs[1..], rs, i);
    }
  }

  lemma {:induction false} FetchKeeps(source: Source, c: string, r: BlockRange)
    ensures multiset(Fetch(source, c, r)) == multiset(EventsIn(source, c, r.from, r.to + 1))
  {
    SortedSame(Fetch(source, c, r), EventsIn(source, c, r.from, r.to + 1));
  }

  lemma {:induction false} SortedSame(sorted: seq<Event>, s: seq<Event>)
    requires sorted == Sort(s, ByPosition())
    ensures multiset(sorted) == multiset(s)
  {
    SortKeeps(s, ByPosition());
  }

  lemma {:induction false} GatherKeeps(source: Source, cs: seq<string>, r: BlockRange)
    ensures multiset(Gather(source, cs, r)) == multiset(AllEvents(source, cs, r.from, r.to + 1))
  {
    if cs != [] {
      GatherKeeps(source, cs[1..], r);
      FetchKeeps(source, cs[0], r);
      SameConcat(Fetch(source, cs[0], r), Gather(source, cs[1..], r),
                 EventsIn(source, cs[0], r.from, r.to + 1), AllEvents(source, cs[1..], r.from, r.to + 1));
    }
  }

  lemma {:induction false} DeliveredOver(source: Source, cs: seq<string>, rs: seq<BlockRange>, i: nat)
    requires i <= |rs|
    ensures Delivered(source, SamePlans(cs, rs), i, |rs|) == Joined(BatchOf(source, cs), rs[i..])
    decreases |rs| - i
  {
    if i < |rs| {
      GatherSame(source, cs, rs, i);
      DeliveredOver(source, cs, rs, i + 1);
      assert rs[i..][1..] == rs[i + 1..];
    }
  }

  /** Where an event of a contract comes from. */
  lemma {:induction false} EventsInFrom(source: Source, c: string, a: nat, b: nat, e: Event)
    requires Honest(source) && e in EventsIn(source, c, a, b)
    ensures a <= e.block < b && e in source(c, e.block)
    decreases b - a
  {
    assert EventsIn(source, c, a, b) == source(c, a) + EventsIn(source, c, a + 1, b);
    if e in source(c, a) {
    } else {
      EventsInFrom(source, c, a + 1, b, e);
    }
  }

  lemma {:induction false} AllEventsFrom(source: Source, cs: seq<string>, a: nat, b: nat, e: Event) returns (c: string)
    requires Honest(source) && e in AllEvents(source, cs, a, b)
    ensures c in cs && a <= e.block < b && e in source(c, e.block)
  {
    if e in EventsIn(source, cs[0], a, b) {
      c := cs[0];
      EventsInFrom(source, c, a, b, e);
    } else {
      c := AllEventsFrom(source, cs[1..], a, b, e);
    }
  }

  lemma DistinctConcat(s: seq<Event>, r: seq<Event>)
    requires Distinct(s) && Distinct(r)
    requires forall x, y :: x in s && y in r ==> !SamePlace(x, y)
    ensures Distinct(s + r)
  {
    forall i, j | 0 <= i < j < |s + r|
      ensures !SamePlace((s + r)[i], (s + r)[j])
    {
      assert i < |s| ==> s[i] in s;
      assert j >= |s| ==> r[j - |s|] in r;
    }
  }

  lemma {:induction false} EventsInDistinct(source: Source, cs: seq<string>, c: string, a: nat, b: nat)
    requires Honest(source) && Positioned(source, cs) && c in cs
    ensures Distinct(EventsIn(source, c, a, b))
    decreases b - a
  {
    if a < b {
      EventsInDistinct(source, cs, c, a + 1, b);
      EventsInBlocks(source, c, a + 1, b);
      DistinctConcat(source(c, a), EventsIn(source, c, a + 1, b));
    }
  }

  lemma {:induction false} AllEventsDistinct(source: Source, cs: seq<string>, a: nat, b: nat)
    requires Honest(source) && Positioned(source, cs)
    ensures Distinct(AllEvents(source, cs, a, b))
  {
    if cs != [] {
      var own, rest := EventsIn(source, cs[0], a, b), AllEvents(source, cs[1..], a, b);
      assert forall c <- cs[1..] :: c in cs && c != cs[0];
      EventsInDistinct(source, cs, cs[0], a, b);
      AllEventsDistinct(source, cs[1..], a, b);
      forall x, y | x in own && y in rest
        ensures !SamePlace(x, y)
      {
        EventsInFrom(source, cs[0], a, b, x);
        var d := AllEventsFrom(source, cs[1..], a, b, y);
      }
      DistinctConcat(own, rest);
    }
  }

  lemma TwiceIn<T>(s: seq<T>, i: nat, j: nat)
    requires i < j < |s| && s[i] == s[j]
    ensures multiset(s)[s[i]] >= 2
  {
    assert s == s[..i] + [s[i]] + s[i + 1..j] + [s[j]] + s[j + 1..];
  }

  lemma {:induction false} CountedTwice<T>(s: seq<T>, x: T) returns (i: nat, j: nat)
    requires multiset(s)[x] >= 2
    ensures i < j < |s| && s[i] == x && s[j] == x
  {
    assert s == [s[0]] + s[1..];
    if s[0] == x {
      assert x in multiset(s[1..]);
      var k :| 0 <= k < |s[1..]| && s[1..][k] == x;
      i, j := 0, k + 1;
    } else {
      i, j := CountedTwice(s[1..], x);
      i, j := i + 1, j + 1;
    }
  }

  lemma DistinctRearranged(s: seq<Event>, r: seq<Event>)
    requires Distinct(s) && multiset(s) == multiset(r)
    ensures Distinct(r)
  {
    SameElements(s, r);
    forall i, j | 0 <= i < j < |r|
      ensures !SamePlace(r[i], r[j])
    {
      if r[i] == r[j] {
        TwiceIn(r, i, j);
        var a, b := CountedTwice(s, r[i]);
      } else {
        assert r[i] in s && r[j] in s;
      }
    }
  }

  /** Sorting events with distinct positions is strict. */
  lemma DistinctSortsStrictly(s: seq<Event>)
    requires Distinct(s)
    ensures StrictlySorted(Sort(s, ByPosition()), ByPosition())
  {
    PositionOrders();
    SortStrict(s, ByPosition());
  }

  lemma SortedConcat(s: seq<Event>, r: seq<Event>, n: nat)
    requires StrictlySorted(s, ByPosition()) && StrictlySorted(r, ByPosition())
    requires (forall e <- s :: e.block < n) && (forall e <- r :: e.block >= n)
    ensures StrictlySorted(s + r, ByPosition())
  {
    forall i, j | 0 <= i < j < |s + r|
      ensures ByPosition()((s + r)[i], (s + r)[j]) && !ByPosition()((s + r)[j], (s + r)[i])
    {
      assert i < |s| ==> s[i] in s;
      assert j >= |s| ==> r[j - |s|] in r;
    }
  }

  /** Putting a batch in front of what follows it. */
  lemma DeliveryStep(batch: seq<Event>, rest: seq<Event>, here: multiset<Event>, later: seq<Event>, n: nat)
    requires multiset(batch) == here && multiset(rest) == multiset(later)
    requires StrictlySorted(batch, ByPosition()) && StrictlySorted(rest, ByPosition())
    requires (forall e <- batch :: e.block < n) && (forall e <- later :: e.block >= n)
    ensures multiset(batch + rest) == here + multiset(later)
    ensures StrictlySorted(batch + rest, ByPosition())
  {
    SameElements(rest, later);
    SortedConcat(batch, rest, n);
  }

  /** A sequence is all events from block a up to block b, strictly sorted. */
  ghost predicate InOrder(d: seq<Event>, source: Source, cs: seq<string>, a: nat, b: nat) {
    multiset(d) == multiset(AllEvents(source, cs, a, b)) && StrictlySorted(d, ByPosition())
  }

  lemma InOrderConcat(d: seq<Event>, r: seq<Event>, source: Source, cs: seq<string>, a: nat, m: nat, b: nat)
    requires Honest(source) && a <= m <= b
    ensures InOrder(d, source, cs, a, m) && InOrder(r, source, cs, m, b) ==> InOrder(d + r, source, cs, a, b)
  {
    if InOrder(d, source, cs, a, m) && InOrder(r, source, cs, m, b) {
      AllEventsSplit(source, cs, a, m, b);
      AllEventsBlocks(source, cs, a, m);
      AllEventsBlocks(source, cs, m, b);
      SameElements(d, AllEvents(source, cs, a, m));
      DeliveryStep(d, r, multiset(AllEvents(source, cs, a, m)), AllEvents(source, cs, m, b), m);
    }
  }

  /** One batch: the events of its blocks, strictly sorted. */
  lemma BatchIs(source: Source, cs: seq<string>, r: BlockRange)
    requires Honest(source) && Positioned(source, cs)
    ensures InOrder(Sort(Gather(source, cs, r), ByPosition()), source, cs, r.from, r.to + 1)
  {
    GatherKeeps(source, cs, r);
    SortKeeps(Gather(source, cs, r), ByPosition());
    AllEventsDistinct(source, cs, r.from, r.to + 1);
    DistinctRearranged(AllEvents(source, cs, r.from, r.to + 1), Gather(source, cs, r));
    DistinctSortsStrictly(Gather(source, cs, r));
  }

  /** The pieces of consecutive ranges, one after the other. */
  function Joined<T>(piece: BlockRange -> seq<T>, rs: seq<BlockRange>): seq<T> {
    if rs == [] then [] else piece(rs[0]) + Joined(piece, rs[1..])
  }

  /** p holds of a piece for blocks a..b-1. */
  predicate Fits<T>(p: (seq<T>, nat, nat) -> bool, d: seq<T>, a: nat, b: nat) {
    p(d, a, b)
  }

  /** A property of pieces that adjacent pieces pass on to their concatenation holds of a partition. */
  lemma {:induction false} JoinedFits<T>(piece: BlockRange -> seq<T>, p: (seq<T>, nat, nat) -> bool,
                                         rs: seq<BlockRange>, from: nat, current: nat, chunk: nat)
    requires Partitions(rs, from, current, chunk)
    requires forall a: nat, b: nat :: a >= b ==> Fits(p, [], a, b)
    requires forall r <- rs :: Fits(p, piece(r), r.from, r.to + 1)
    requires forall d, e, a: nat, m: nat, b: nat ::
      a <= m <= b && Fits(p, d, a, m) && Fits(p, e, m, b) ==> Fits(p, d + e, a, b)
    ensures Fits(p, Joined(piece, rs), from, current + 1)
    decreases |rs|
  {
    if rs != [] {
      var m, d, e := rs[0].to + 1, piece(rs[0]), Joined(piece, rs[1..]);
      JoinedFits(piece, p, rs[1..], m, current, chunk);
      assert rs[0] in rs && Fits(p, d, from, m) && Fits(p, e, m, current + 1);
      assert Fits(p, d + e, from, current + 1);
    }
  }

  function BatchOf(source: Source, cs: seq<string>): BlockRange -> seq<Event> {
    (r: BlockRange) => Sort(Gather(source, cs, r), ByPosition())
  }

  /** All ranges together: all events from the first block, strictly sorted. */
  lemma OverIs(source: Source, cs: seq<string>, rs: seq<BlockRange>, from: nat, current: nat, chunk: nat)
    requires Honest(source) && Positioned(source, cs) && Partitions(rs, from, current, chunk)
    ensures InOrder(Joined(BatchOf(source, cs), rs), source, cs, from, current + 1)
  {
    var p := (d: seq<Event>, a: nat, b: nat) => InOrder(d, source, cs, a, b);
    forall a: nat, b: nat | a >= b
      ensures Fits(p, [], a, b)
    {
      AllEventsEmpty(source, cs, a, b);
    }
    forall r | r in rs
      ensures Fits(p, BatchOf(source, cs)(r), r.from, r.to + 1)
    {
      BatchIs(source, cs, r);
    }
    forall d, e, a: nat, m: nat, b: nat | a <= m <= b && Fits(p, d, a, m) && Fits(p, e, m, b)
      ensures Fits(p, d + e, a, b)
    {
      InOrderConcat(d, e, source, cs, a, m, b);
    }
    JoinedFits(BatchOf(source, cs), p, rs, from, current, chunk);
  }

  lemma {:induction false} AllEventsEmpty(source: Source, cs: seq<string>, a: nat, b: nat)
    requires a >= b
    ensures AllEvents(source, cs, a, b) == []
  {
    if cs != [] {
      AllEventsEmpty(source, cs[1..], a, b);
    }
  }

  /** When all contracts start at the same block, the handlers see every decodable event exactly
      once, in position order, whatever the chunk size: the delivery is the sort of all events. */
  lemma DeliveryIsSorted(source: Source, cs: seq<string>, start: nat, current: nat, chunk: nat)
    requires chunk >= 1 && Honest(source) && Positioned(source, cs)
    ensures var rs := Chunks(start, current, chunk);
      Delivered(source, SamePlans(cs, rs), 0, |rs|) == Sort(AllEvents(source, cs, start, current + 1), ByPosition())
  {
    var rs, all := Chunks(start, current, chunk), AllEvents(source, cs, start, current + 1);
    ChunksPartition(start, current, chunk);
    assert rs[0..] == rs;
    DeliveredOver(source, cs, rs, 0);
    OverIs(source, cs, rs, start, current, chunk);
    AllEventsDistinct(source, cs, start, current + 1);
    DistinctSortsStrictly(all);
    SortKeeps(all, ByPosition());
    StrictlySortedUnique(Delivered(source, SamePlans(cs, rs), 0, |rs|), Sort(all, ByPosition()), ByPosition());
  }

  function Lagging(c: string, n: nat): seq<Event> {
    if (c == "a" && n == 1) || (c == "b" && n == 2) then [Event(c, n, 0, "")] else []
  }

  /** Contracts that start at different blocks are merged range index by range index, so a later
      block can reach the handlers before an earlier one. */
  lemma DifferentStartsDisorder(plans: seq<ContractPlan>)
    requires plans == [ContractPlan("a", Chunks(0, 2, 1)), ContractPlan("b", Chunks(2, 2, 1))]
    ensures Delivered(Lagging, plans, 0, 3) == [Event("b", 2, 0, ""), Event("a", 1, 0, "")]
  {
    assert Chunks(3, 2, 1) == [];
    assert Chunks(2, 2, 1) == [BlockRange(2, 2)];
    assert Chunks(1, 2, 1) == [BlockRange(1, 1), BlockRange(2, 2)];
    assert Chunks(0, 2, 1) == [BlockRange(0, 0), BlockRange(1, 1), BlockRange(2, 2)];
    ThreeBatches(plans);
  }

  lemma ThreeBatches(plans: seq<ContractPlan>)
    requires plans == [ContractPlan("a", [BlockRange(0, 0), BlockRange(1, 1), BlockRange(2, 2)]),
                       ContractPlan("b", [BlockRange(2, 2)])]
    ensures Delivered(Lagging, plans, 0, 3) == Lagging("b", 2) + Lagging("a", 1)
  {
    TwoPlans(plans, 0);
    TwoPlans(plans, 1);
    TwoPlans(plans, 2);
    assert Delivered(Lagging, plans, 2, 3) == [] + Delivered(Lagging, plans, 3, 3);
    assert Delivered(Lagging, plans, 1, 3) == Lagging("a", 1) + [];
  }

  lemma TwoPlans(plans: seq<ContractPlan>, i: nat)
    requires plans == [ContractPlan("a", [BlockRange(0, 0), BlockRange(1, 1), BlockRange(2, 2)]),
                       ContractPlan("b", [BlockRange(2, 2)])]
    requires i < 3
    ensures Batch(Lagging, plans, i) == if i == 0 then Lagging("b", 2) else Lagging("a", i)
  {
    OneBlock(Lagging, "a", i);
    OneBlock(Lagging, "b", 2);
    assert plans[1..] == [plans[1]] && [plans[1]][1..] == [];
    assert GatherAt(Lagging, [plans[1]], i) == if i == 0 then Lagging("b", 2) else [];
    var g := GatherAt(Lagging, plans, i);
    assert g == if i == 0 then Lagging("b", 2) else Lagging("a", i);
    SortOne(g);
  }

  lemma SortOne(s: seq<Event>)
    requires |s| <= 1
    ensures Sort(s, ByPosition()) == s
  {
    if s != [] {
      assert s[1..] == [] && Sort([], ByPosition()) == [];
      assert Place(s[0], [], ByPosition()) == [s[0]];
    }
  }

  lemma OneBlock(source: Source, c: string, n: nat)
    requires |source(c, n)| <= 1
    ensures Fetch(source, c, BlockRange(n, n)) == source(c, n)
  {
    assert EventsIn(source, c, n + 1, n + 1) == [];
    assert EventsIn(source, c, n, n + 1) == source(c, n);
    SortOne(source(c, n));
  }
}
