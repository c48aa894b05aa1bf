/** The backfill coordinator as the source runs it: plan, then per range fetch, merge, sort, handle,
    flush and checkpoint (crates/forge-index-sync/src/backfill/coordinator.rs:77-268). */
module Coordinator {
  import opened Tables
  import opened Sorting
  import opened Planner
  import opened Delivery
  import opened Backfill
  import opened Workers

  /** Every one of the first n ranges completes. */
  predicate AllComplete(n: nat, fates: seq<Fate>) {
    n <= |fates| && forall i :: 0 <= i < n ==> fates[i].Completes?
  }

  class BackfillCoordinator {
    const contracts: seq<Contract>
    const workers: set<string>
    const node: Source
    const handler: Event -> seq<Emit>
    const maxSize: nat
    var tables: map<string, Table>
    var checkpoints: map<string, nat>

    constructor (contracts: seq<Contract>, workers: set<string>, node: Source, handler: Event -> seq<Emit>,
                 maxSize: nat, d: Durable)
      ensures Stored() == d
      ensures Settings() == Config(contracts, Seen(node, workers), handler, maxSize)
    {
      this.contracts, this.workers, this.node := contracts, workers, node;
      this.handler, this.maxSize := handler, maxSize;
      this.tables, this.checkpoints := d.tables, d.checkpoints;
    }

    ghost function Stored(): Durable
      reads this
    {
      Durable(tables, checkpoints)
    }

    ghost function Settings(): Config
    {
      Config(contracts, Seen(node, workers), handler, maxSize)
    }

    /** A checkpoint that cannot be read counts as none. */
    method BuildPlans(head: nat, chunk: nat, unread: set<string>) returns (plans: seq<ContractPlan>, maxRanges: nat)
      requires chunk >= 1 && head + chunk <= U64_MAX
      ensures plans == PlansFor(contracts, Readable(checkpoints, unread), head, chunk)
      ensures maxRanges == MaxRanges(plans)
    {
      plans := [];
      ghost var cp := Readable(checkpoints, unread);
      for k := 0 to |contracts|
        invariant |plans| == k
        invariant forall j :: 0 <= j < k ==>
          plans[j] == ContractPlan(contracts[j].name, Chunks(StartOf(contracts[j], cp), head, chunk))
      {
        var c := contracts[k];
        var checkpoint := if c.name in checkpoints && c.name !in unread then Some(checkpoints[c.name]) else None;
        var plan := MakePlan(c.name, c.start, 0, head, checkpoint, chunk);
        plans := plans + [ContractPlan(plan.contractName, plan.ranges)];
      }
      maxRanges := 0;
      var k := |plans|;
      while k > 0
        invariant 0 <= k <= |plans| && maxRanges == MaxRanges(plans[k..])
      {
        k := k - 1;
        assert plans[k..][1..] == plans[k + 1..];
        if |plans[k].ranges| > maxRanges {
          maxRanges := |plans[k].ranges|;
        }
      }
      assert plans[0..] == plans;
    }

    method GatherEvents(plans: seq<ContractPlan>, i: nat) returns (events: seq<Event>)
      ensures events == GatherAt(Settings().source, plans, i)
    {
      events := [];
      var k := |plans|;
      while k > 0
        invariant 0 <= k <= |plans| && events == GatherAt(Settings().source, plans[k..], i)
      {
        k := k - 1;
        var more := FetchPlan(plans[k], i);
        GatherSeen(node, workers, plans[k..], i, more);
        assert plans[k..][1..] == plans[k + 1..];
        events := more + events;
      }
      assert plans[0..] == plans;
    }

    method FetchPlan(plan: ContractPlan, i: nat) returns (events: seq<Event>)
      ensures events == FetchSeen(node, workers, plan, i)
    {
      if i < |plan.ranges| && plan.name in workers {
        return Fetch(node, plan.name, plan.ranges[i]);
      }
      return [];
    }

    method HandleEvents(events: seq<Event>) returns (buf: Pending)
      ensures buf == HandleAll(map[], events, Settings())
    {
      buf := map[];
      for n := 0 to |events|
        invariant HandleAll(buf, events[n..], Settings()) == HandleAll(map[], events, Settings())
      {
        assert events[n..][1..] == events[n + 1..];
        var emits := handler(events[n]);
        var i := 0;
        ghost var buf0 := buf;
        while i < |emits|
          invariant 0 <= i <= |emits|
          invariant Enqueue(buf, emits[i..], maxSize) == Enqueue(buf0, emits, maxSize)
        {
          assert emits[i..][1..] == emits[i + 1..];
          var m := emits[i];
          if |Queue(buf, m.table)| >= maxSize {
            break;
          }
          buf := Pushed(buf, m);
          i := i + 1;
        }
        assert buf == Enqueue(buf0, emits, maxSize);
      }
    }

    method SaveCheckpoints(plans: seq<ContractPlan>, i: nat, saved: set<string>)
      modifies this`checkpoints
      ensures checkpoints == Saved(old(checkpoints), plans, i, saved)
    {
      for k := 0 to |plans|
        invariant Saved(checkpoints, plans[k..], i, saved) == Saved(old(checkpoints), plans, i, saved)
      {
        assert plans[k..][1..] == plans[k + 1..];
        var plan := plans[k];
        if i < |plan.ranges| && plan.name in saved {
          checkpoints := checkpoints[plan.name := plan.ranges[i].to + 1];
        }
      }
    }

    /** One start of the backfill; `fates` says how each range goes, and the process is killed when
        there is none left. The answer says whether every range completed. */
    method RunChain(head: nat, chunk: nat, unread: set<string>, fates: seq<Fate>) returns (ok: bool)
      requires chunk >= 1 && head + chunk <= U64_MAX
      modifies this
      ensures Stored() == RunOnce(old(Stored()), Settings(), Start(head, chunk, unread, fates))
      ensures var plans := PlansFor(contracts, Readable(old(checkpoints), unread), head, chunk);
        ok <==> AllComplete(MaxRanges(plans), fates)
    {
      var plans, maxRanges := BuildPlans(head, chunk, unread);
      var i := 0;
      while i < maxRanges
        invariant 0 <= i <= |fates| && i <= maxRanges && forall j :: 0 <= j < i ==> fates[j].Completes?
        invariant RunRanges(Stored(), Settings(), plans, i, fates[i..]) ==
                  RunRanges(old(Stored()), Settings(), plans, 0, fates)
        decreases maxRanges - i
      {
        if i == |fates| {
          return false;
        }
        RunOneRange(Stored(), Settings(), plans, i, fates[i..]);
        assert fates[i..][0] == fates[i] && fates[i..][1..] == fates[i + 1..];
        if fates[i].FetchFails? {
          return false;
        }
        var events := GatherEvents(plans, i);
        events := Sort(events, ByPosition());
        var buf := HandleEvents(events);
        if fates[i].FlushStops? {
          tables := Written(tables, buf, fates[i].written);
          return false;
        }
        tables := Written(tables, buf, tables.Keys);
        SaveCheckpoints(plans, i, fates[i].saved);
        i := i + 1;
      }
      return true;
    }
  }
}
